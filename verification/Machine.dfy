/**
 The memory manager as a whole: page-table memory, frame supply, kernel root and
 slot table, and the operations the kernel's VM service performs on them.
 */
module Machine {
  import opened Wrappers
  import opened Pte
  import opened FrameSupply
  import opened PageTree
  import opened PageMapper
  import opened Views
  import opened Teardown
  import opened Creation
  import opened Slots

  datatype State = State(ram: Ram, kernel: PhysAddr, nxe: bool, slots: seq<Slot>)

  /** The root a handle resolves to; a released slot resolves to frame 0. */
  function RootOf(s: State, h: Handle): PhysAddr {
    match h
    case KernelHandle => s.kernel
    case SlotHandle(i) => if i < |s.slots| then s.slots[i].root else PhysAddr(0)
    case DanglingHandle => PhysAddr(0)
  }

  predicate LiveHandle(s: State, h: Handle) {
    h == KernelHandle || LiveSlot(s.slots, h)
  }

  // ---- Operations -----------------------------------------------------------

  function NewSpace(s: State): (State, Result<Handle>) {
    var (supply, frame) := Alloc(s.ram.supply);
    match frame
    case None => (s.(ram := s.ram.(supply := supply)), Err(OutOfMemory))
    case Some(f) =>
      var (slots, h) := AllocSlot(s.slots, f);
      (s.(ram := Ram(NewRoot(s.ram.mem, s.kernel, f), supply), slots := slots), h)
  }

  function DestroySpace(s: State, h: Handle): State {
    if h == KernelHandle then s
    else
      s.(ram := s.ram.(supply := FreeAll(s.ram.supply, DestroyOrder(s.ram.mem, RootOf(s, h)))),
      slots := FreeSlot(s.slots, h))
  }

  function Map4K(s: State, h: Handle, v: bv64, p: bv64, flags: MapFlags): (State, Result<()>) {
    if !Aligned4K(v) || !Aligned4K(p) then (s, Err(Unaligned))
    else if !IsCanonical(v) then (s, Err(InvalidArgs))
    else
      var (ram, r) := MapPage(s.ram, RootOf(s, h), PageOf(v), LeafEntry(p, flags, s.nxe));
      (s.(ram := ram), r)
  }

  function LeafEntry(p: bv64, flags: MapFlags, nxe: bool): Entry {
    Entry(PhysAddr(p & ADDR_MASK), FlagsToAttr(flags, nxe))
  }

  function Unmap4K(s: State, h: Handle, v: bv64): (State, Result<()>) {
    if !Aligned4K(v) then (s, Err(Unaligned))
    else if !IsCanonical(v) then (s, Err(InvalidArgs))
    else
      var (mem, r) := UnmapPage(s.ram.mem, RootOf(s, h), PageOf(v));
      (s.(ram := s.ram.(mem := mem)), r)
  }

  function Protect4K(s: State, h: Handle, v: bv64, flags: MapFlags): (State, Result<()>) {
    if !Aligned4K(v) then (s, Err(Unaligned))
    else if !IsCanonical(v) then (s, Err(InvalidArgs))
    else
      var (mem, r) := ProtectPage(s.ram.mem, RootOf(s, h), PageOf(v), FlagsToAttr(flags, s.nxe));
      (s.(ram := s.ram.(mem := mem)), r)
  }

  /** The byte of a frame at the page offset of `v`. */
  function WithOffset(base: PhysAddr, v: bv64): PhysAddr {
    PhysAddr(base.raw | (v & 0xfff))
  }

  function Translate(s: State, h: Handle, v: bv64): TranslateResult {
    if !IsCanonical(v) then Fault(InvalidAddress)
    else
      var page := PageOf(v);
      match Walk(s.ram.mem, RootOf(s, h), page)
      case None => Fault(NotPresent)
      case Some(pt) => Physical(WithOffset(Rd(s.ram.mem, pt, page[3]).target, v))
  }

  // ---- Steps and runs -------------------------------------------------------

  datatype Op =
    | New
    | Destroy(h: Handle)
    | Map(h: Handle, v: bv64, p: bv64, flags: MapFlags)
    | Unmap(h: Handle, v: bv64)
    | Protect(h: Handle, v: bv64, flags: MapFlags)

  function Step(s: State, op: Op): State {
    match op
    case New => NewSpace(s).0
    case Destroy(h) => DestroySpace(s, h)
    case Map(h, v, p, flags) => Map4K(s, h, v, p, flags).0
    case Unmap(h, v) => Unmap4K(s, h, v).0
    case Protect(h, v, flags) => Protect4K(s, h, v, flags).0
  }

  /** Callers name a live space, and an address that no large page of the boot tables covers. */
  predicate Allowed(s: State, op: Op) {
    match op
    case New => true
    case Destroy(h) => LiveHandle(s, h)
    case Map(h, v, _, _) => LiveHandle(s, h) && (IsCanonical(v) ==> SmallPath(s.ram.mem, RootOf(s, h), PageOf(v)))
    case Unmap(h, v) => LiveHandle(s, h) && (IsCanonical(v) ==> SmallPath(s.ram.mem, RootOf(s, h), PageOf(v)))
    case Protect(h, v, _) => LiveHandle(s, h) && (IsCanonical(v) ==> SmallPath(s.ram.mem, RootOf(s, h), PageOf(v)))
  }

  // ---- The invariant --------------------------------------------------------

  ghost function Roots(slots: seq<Slot>): set<PhysAddr> {
    set i | 0 <= i < |slots| && slots[i].used :: slots[i].root
  }

  predicate DistinctRoots(slots: seq<Slot>) {
    forall i, j :: 0 <= i < j < |slots| && slots[i].used && slots[j].used ==> slots[i].root != slots[j].root
  }

  ghost predicate Inv(s: State, l: Ledger) {
    && Balanced(s.ram, l)
    && SlotsOk(s.slots) && DistinctRoots(s.slots)
    && l.own.kernel == s.kernel && l.own.spaces == Roots(s.slots)
  }

  lemma LiveHandleRoot(s: State, l: Ledger, h: Handle)
    requires Inv(s, l) && LiveHandle(s, h)
    ensures Live(l.own, RootOf(s, h))
    ensures h != KernelHandle ==> RootOf(s, h) in l.own.spaces && RootOf(s, h) != s.kernel
  {
  }

  lemma DistinctHandles(s: State, l: Ledger, h: Handle, h': Handle)
    requires Inv(s, l) && LiveHandle(s, h) && LiveHandle(s, h') && h != h'
    ensures RootOf(s, h) != RootOf(s, h')
  {
  }

  /** In the lower half of a space this code created every address is allowed. */
  lemma LowerHalfAllowed(s: State, l: Ledger, op: Op)
    requires Inv(s, l) && (op.Map? || op.Unmap? || op.Protect?)
    requires LiveSlot(s.slots, op.h) && PageOf(op.v)[0] < KERNEL_PML4_START
    ensures Allowed(s, op)
  {
    LiveHandleRoot(s, l, op.h);
    LowerHalfSmall(s.ram.mem, l.own, RootOf(s, op.h), PageOf(op.v));
  }

  // ---- Creating -------------------------------------------------------------

  ghost function NewLedger(s: State, l: Ledger): Ledger {
    var f := Alloc(s.ram.supply).1;
    if f.None? then l
    else if FirstUnused(s.slots, 0).None? then l.(dropped := l.dropped + {f.value})
    else l.(own := Enrol(l.own, f.value))
  }

  /** Creating a space keeps the invariant; with all slots taken the fresh frame is lost. */
  lemma NewKeepsInv(s: State, l: Ledger)
    requires Inv(s, l)
    ensures Inv(NewSpace(s).0, NewLedger(s, l))
    ensures Keeps(s.ram.mem, NewSpace(s).0.ram.mem, l.own)
    ensures KeepsLeaves(s.ram.mem, NewSpace(s).0.ram.mem, l.own)
  {
    AllocKeepsPartition(s.ram.supply, l.all, Taken(l), l.dropped);
    var (supply, frame) := Alloc(s.ram.supply);
    if frame.Some? {
      var f := frame.value;
      assert f !in l.own.nodes;
      NewRootKeepsMeaning(s.ram.mem, l.own, f);
      AllocSlotExact(s.slots, f);
      if FirstUnused(s.slots, 0).None? {
        UnlistedRootKeepsTree(s.ram.mem, l.own, f);
        LoseFrame(supply, l.all, Taken(l), l.dropped, f);
      } else {
        NewRootKeepsTree(s.ram.mem, l.own, f);
        assert Taken(NewLedger(s, l)) == Taken(l) + {f};
        RootsAfterAlloc(s.slots, FirstUnused(s.slots, 0).value, f);
        FreshRootDistinct(s, l, f);
      }
    }
  }

  /**
   The answer of `address_space_new`.  It succeeds if and only if a frame is left and
   one of the 64 slots is unused.  Success gives a handle nobody held, with a frame
   nobody used as its root; failure is out of memory.  No other handle is disturbed.
   */
  lemma NewSpaceExact(s: State, l: Ledger)
    requires Inv(s, l)
    ensures var (n, h) := NewSpace(s);
            && |s.slots| == 64
            && (h.Ok? <==> |s.ram.supply.free| + |s.ram.supply.pending| > 0 && exists i :: 0 <= i < 64 && !s.slots[i].used)
            && (h.Err? ==> h.error == OutOfMemory)
            && (h.Ok? ==> && !LiveHandle(s, h.value) && LiveHandle(n, h.value)
                          && RootOf(n, h.value) in l.all && RootOf(n, h.value) !in l.own.nodes && RootOf(n, h.value) !in l.dropped)
            && (forall g :: h == Ok(g) || (LiveHandle(n, g) == LiveHandle(s, g) && RootOf(n, g) == RootOf(s, g)))
  {
    AllocKeepsPartition(s.ram.supply, l.all, Taken(l), l.dropped);
    var f := Alloc(s.ram.supply).1;
    if f.Some? {
      assert f.value !in l.own.nodes;
      AllocSlotExact(s.slots, f.value);
    }
  }

  lemma LoseFrame(sup: Supply, all: set<PhysAddr>, out: set<PhysAddr>, dropped: set<PhysAddr>, f: PhysAddr)
    requires Partition(sup, all, out + {f}, dropped) && f !in out
    ensures Partition(sup, all, out, dropped + {f})
  {
  }

  lemma UnlistedRootKeepsTree(m: Memory, g: Ownership, f: PhysAddr)
    requires Tree(m, g) && f !in g.nodes
    ensures Tree(NewRoot(m, g.kernel, f), g)
  {
    var m' := NewRoot(m, g.kernel, f);
    assert Live(g, g.kernel);
    forall t, j | t in g.nodes ensures Rd(m', t, j) == Rd(m, t, j) {
      NewRootReads(m, g.kernel, f, t, j);
    }
    SameWordsSameTree(m, m', g);
  }

  lemma SameWordsSameTree(m: Memory, m': Memory, g: Ownership)
    requires Tree(m, g) && forall t, j :: t in g.nodes ==> Rd(m', t, j) == Rd(m, t, j)
    ensures Tree(m', g)
  {
    assert Live(g, g.kernel);
    forall t | t in g.nodes ensures Placed(m', g, t) { assert Placed(m, g, t); }
    forall t, j | t in g.nodes ensures LinkOwned(m', g, t, j) { assert LinkOwned(m, g, t, j); }
    forall t, j | t in g.nodes ensures PlainEntry(m', g, t, j) { assert PlainEntry(m, g, t, j); }
  }

  lemma RootsAfterAlloc(slots: seq<Slot>, i: nat, f: PhysAddr)
    requires i < |slots| && !slots[i].used
    ensures Roots(slots[i := Slot(true, f, SlotHandle(i))]) == Roots(slots) + {f}
  {
    var slots' := slots[i := Slot(true, f, SlotHandle(i))];
    forall x ensures x in Roots(slots') <==> x in Roots(slots) + {f} {
      if x in Roots(slots) {
        var k :| 0 <= k < |slots| && slots[k].used && slots[k].root == x;
        assert slots'[k].used && slots'[k].root == x;
      }
      if x == f {
        assert slots'[i].used && slots'[i].root == x;
      }
    }
  }

  lemma FreshRootDistinct(s: State, l: Ledger, f: PhysAddr)
    requires Inv(s, l) && f !in l.own.nodes && FirstUnused(s.slots, 0).Some?
    ensures DistinctRoots(AllocSlot(s.slots, f).0)
  {
    forall k | 0 <= k < |s.slots| && s.slots[k].used ensures s.slots[k].root != f {
      assert s.slots[k].root in Roots(s.slots);
      assert Live(l.own, s.slots[k].root);
    }
  }

  // ---- Destroying -----------------------------------------------------------

  ghost function Evict(g: Ownership, r: PhysAddr): Ownership {
    Ownership(g.kernel, g.spaces - {r}, map f | f in g.nodes && g.nodes[f].root != r :: g.nodes[f])
  }

  /** Tables above index 256 that a space did not inherit but made for itself; destruction forgets them. */
  ghost function PrivateUpperTables(g: Ownership, r: PhysAddr): set<PhysAddr> {
    set f | f in g.nodes && g.nodes[f].root == r && f !in LowerTables(g, r)
  }

  ghost function DestroyLedger(s: State, l: Ledger, h: Handle): Ledger {
    if h == KernelHandle then l
    else
      var r := RootOf(s, h);
      var order := DestroyOrder(s.ram.mem, r);
      l.(own := Evict(l.own, r),
      dropped := l.dropped + Elements(order[Room(s.ram.supply, order)..]) + PrivateUpperTables(l.own, r))
  }

  lemma EvictKeepsTree(m: Memory, g: Ownership, r: PhysAddr)
    requires Tree(m, g) && r in g.spaces
    ensures Tree(m, Evict(g, r))
  {
    var g' := Evict(g, r);
    assert Live(g, g.kernel);
    forall x | Live(g', x) ensures x in g'.nodes && g'.nodes[x] == Node(x, x, []) {
      assert Live(g, x);
    }
    forall f | f in g'.nodes ensures Placed(m, g', f) {
      assert Placed(m, g, f);
    }
    forall f, j | f in g'.nodes ensures LinkOwned(m, g', f, j) {
      assert LinkOwned(m, g, f, j);
    }
    forall f, j | f in g'.nodes ensures PlainEntry(m, g', f, j) {
      assert PlainEntry(m, g, f, j);
    }
  }

  lemma LoseFrames(sup: Supply, all: set<PhysAddr>, out: set<PhysAddr>, dropped: set<PhysAddr>, lost: set<PhysAddr>)
    requires Partition(sup, all, out, dropped) && lost <= out
    ensures Partition(sup, all, out - lost, dropped + lost)
  {
  }

  /** The supply after a destruction: every lower-half table returned once, the private upper ones lost. */
  lemma DestroyKeepsPartition(s: State, l: Ledger, r: PhysAddr)
    requires Balanced(s.ram, l) && r in l.own.spaces
    ensures var order := DestroyOrder(s.ram.mem, r);
            Partition(FreeAll(s.ram.supply, order), l.all, Evict(l.own, r).nodes.Keys - l.boot,
                      l.dropped + Elements(order[Room(s.ram.supply, order)..]) + PrivateUpperTables(l.own, r))
  {
    var order := DestroyOrder(s.ram.mem, r);
    var lower, upper := LowerTables(l.own, r), PrivateUpperTables(l.own, r);
    DestroyExact(s.ram.mem, l.own, r);
    SpaceTablesTaken(l, r);
    FreeAllKeepsPartition(s.ram.supply, l.all, Taken(l), l.dropped, order);
    LoseFrames(FreeAll(s.ram.supply, order), l.all, Taken(l) - lower,
               l.dropped + Elements(order[Room(s.ram.supply, order)..]), upper);
  }

  lemma SpaceTablesTaken(l: Ledger, r: PhysAddr)
    requires l.boot <= l.own.nodes.Keys && r != l.own.kernel
    requires forall f {:trigger f in l.boot} :: f in l.boot ==> l.own.nodes[f].root == l.own.kernel
    ensures LowerTables(l.own, r) <= Taken(l) && PrivateUpperTables(l.own, r) <= Taken(l) - LowerTables(l.own, r)
    ensures Evict(l.own, r).nodes.Keys - l.boot == Taken(l) - LowerTables(l.own, r) - PrivateUpperTables(l.own, r)
  {
  }

  lemma DestroyKeepsInv(s: State, l: Ledger, h: Handle)
    requires Inv(s, l) && LiveHandle(s, h)
    ensures Inv(DestroySpace(s, h), DestroyLedger(s, l, h))
  {
    if h != KernelHandle {
      var r := RootOf(s, h);
      LiveHandleRoot(s, l, h);
      EvictKeepsTree(s.ram.mem, l.own, r);
      DestroyKeepsPartition(s, l, r);
      SlotsAfterDestroy(s, l, h);
      BootTablesStay(l, r);
    }
  }

  lemma SlotsAfterDestroy(s: State, l: Ledger, h: Handle)
    requires Inv(s, l) && LiveSlot(s.slots, h)
    ensures var slots := FreeSlot(s.slots, h);
            SlotsOk(slots) && DistinctRoots(slots) && Roots(slots) == l.own.spaces - {RootOf(s, h)}
  {
  }

  lemma BootTablesStay(l: Ledger, r: PhysAddr)
    requires l.boot <= l.own.nodes.Keys && r != l.own.kernel
    requires forall f {:trigger f in l.boot} :: f in l.boot ==> l.own.nodes[f].root == l.own.kernel
    ensures l.boot <= Evict(l.own, r).nodes.Keys
    ensures forall f {:trigger f in l.boot} :: f in l.boot ==> Evict(l.own, r).nodes[f].root == l.own.kernel
  {
  }

  // ---- All operations -------------------------------------------------------

  ghost function LedgerStep(s: State, l: Ledger, op: Op): Ledger {
    match op
    case New => NewLedger(s, l)
    case Destroy(h) => DestroyLedger(s, l, h)
    case Map(h, v, p, flags) =>
      if !Aligned4K(v) || !Aligned4K(p) || !IsCanonical(v) then l
      else MapLedger(s.ram, l, RootOf(s, h), PageOf(v), LeafEntry(p, flags, s.nxe))
    case Unmap(_, _) => l
    case Protect(_, _, _) => l
  }

  lemma MapKeepsInv(s: State, l: Ledger, op: Op)
    requires Inv(s, l) && op.Map? && Allowed(s, op)
    ensures Inv(Step(s, op), LedgerStep(s, l, op))
    ensures Keeps(s.ram.mem, Step(s, op).ram.mem, l.own)
  {
    LiveHandleRoot(s, l, op.h);
    if Aligned4K(op.v) && Aligned4K(op.p) && IsCanonical(op.v) {
      MapRefinesUpdate(s.ram, l, RootOf(s, op.h), PageOf(op.v), LeafEntry(op.p, op.flags, s.nxe));
    }
  }

  lemma UnmapKeepsInv(s: State, l: Ledger, op: Op)
    requires Inv(s, l) && (op.Unmap? || op.Protect?) && Allowed(s, op)
    ensures Inv(Step(s, op), LedgerStep(s, l, op))
    ensures Keeps(s.ram.mem, Step(s, op).ram.mem, l.own)
  {
    LiveHandleRoot(s, l, op.h);
    if Aligned4K(op.v) && IsCanonical(op.v) {
      UnmapRefinesUpdate(s.ram.mem, l.own, RootOf(s, op.h), PageOf(op.v));
      if op.Protect? {
        ProtectRefinesUpdate(s.ram.mem, l.own, RootOf(s, op.h), PageOf(op.v), FlagsToAttr(op.flags, s.nxe));
      }
    }
  }

  /** Every operation keeps the invariant and every table and link that was there. */
  lemma StepKeepsInv(s: State, l: Ledger, op: Op)
    requires Inv(s, l) && Allowed(s, op)
    ensures Inv(Step(s, op), LedgerStep(s, l, op))
    ensures Keeps(s.ram.mem, Step(s, op).ram.mem, l.own)
  {
    match op
    case New => NewKeepsInv(s, l);
    case Destroy(h) => DestroyKeepsInv(s, l, h);
    case Map(_, _, _, _) => MapKeepsInv(s, l, op);
    case Unmap(_, _) => UnmapKeepsInv(s, l, op);
    case Protect(_, _, _) => UnmapKeepsInv(s, l, op);
  }

  /** A root stays live unless its own space is destroyed. */
  lemma StepKeepsLive(s: State, l: Ledger, op: Op, r: PhysAddr)
    requires Inv(s, l) && Allowed(s, op) && Live(l.own, r)
    requires op.Destroy? && op.h != KernelHandle ==> RootOf(s, op.h) != r
    ensures Live(LedgerStep(s, l, op).own, r)
  {
    if op.Map? && Aligned4K(op.v) && Aligned4K(op.p) && IsCanonical(op.v) {
      LiveHandleRoot(s, l, op.h);
      EnsurePathGrows(s.ram, l, RootOf(s, op.h), PageOf(op.v), LeafEntry(op.p, op.flags, s.nxe).attr.user);
    }
  }
}
