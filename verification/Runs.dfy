/**
 What holds in every reachable state and over every run of the memory manager.
 */
module Runs {
  import opened Wrappers
  import opened Pte
  import opened FrameSupply
  import opened PageTree
  import opened PageMapper
  import opened Views
  import opened Teardown
  import opened Creation
  import opened Slots
  import opened Machine

  function Run(s: State, ops: seq<Op>): State {
    if ops == [] then s else Step(Run(s, ops[..|ops| - 1]), ops[|ops| - 1])
  }

  ghost function LedgerRun(s: State, l: Ledger, ops: seq<Op>): Ledger {
    if ops == [] then l
    else LedgerStep(Run(s, ops[..|ops| - 1]), LedgerRun(s, l, ops[..|ops| - 1]), ops[|ops| - 1])
  }

  predicate AllowedRun(s: State, ops: seq<Op>) {
    forall n | 0 <= n < |ops| :: Allowed(Run(s, ops[..n]), ops[n])
  }

  lemma AllowedPrefix(s: State, ops: seq<Op>)
    requires AllowedRun(s, ops) && ops != []
    ensures AllowedRun(s, ops[..|ops| - 1]) && Allowed(Run(s, ops[..|ops| - 1]), ops[|ops| - 1])
  {
    var init := ops[..|ops| - 1];
    forall n | 0 <= n < |init| ensures Allowed(Run(s, init[..n]), init[n]) {
      assert init[..n] == ops[..n];
    }
  }

  lemma AllowedOneMore(s: State, ops: seq<Op>, op: Op)
    requires AllowedRun(s, ops) && Allowed(Run(s, ops), op)
    ensures AllowedRun(s, ops + [op])
  {
    var more := ops + [op];
    forall n | 0 <= n < |more| ensures Allowed(Run(s, more[..n]), more[n]) {
      assert more[..n] == ops[..n];
      if n == |ops| {
        assert ops[..n] == ops;
      }
    }
  }

  /** The invariant holds in every reachable state. */
  lemma {:induction false} RunKeepsInv(s: State, l: Ledger, ops: seq<Op>)
    requires Inv(s, l) && AllowedRun(s, ops)
    ensures Inv(Run(s, ops), LedgerRun(s, l, ops))
    decreases |ops|
  {
    if ops != [] {
      var init := ops[..|ops| - 1];
      AllowedPrefix(s, ops);
      RunKeepsInv(s, l, init);
      StepKeepsInv(Run(s, init), LedgerRun(s, l, init), ops[|ops| - 1]);
    }
  }

  /**
   Ownership in every reachable state: a table found by a lower-half walk is found by
   that walk only, from that space only, and it is nowhere in the allocator.
   */
  lemma EveryTableOnce(s: State, l: Ledger, ops: seq<Op>, h: Handle, p: Path, d: nat, h': Handle, p': Path, d': nat)
    requires Inv(s, l) && AllowedRun(s, ops)
    requires LiveHandle(Run(s, ops), h) && LiveHandle(Run(s, ops), h')
    requires d <= |p| && d <= 3 && d' <= |p'| && d' <= 3 && (d > 0 ==> p[0] < KERNEL_PML4_START)
    requires var e := Run(s, ops);
             At(e.ram.mem, RootOf(e, h), p, d).Some? &&
             At(e.ram.mem, RootOf(e, h), p, d) == At(e.ram.mem, RootOf(e, h'), p', d')
    ensures h == h' && d == d' && p[..d] == p'[..d]
    ensures var e := Run(s, ops);
            var f := At(e.ram.mem, RootOf(e, h), p, d).value;
            f !in e.ram.supply.free && f !in e.ram.supply.pending
  {
    var e, k := Run(s, ops), LedgerRun(s, l, ops);
    RunKeepsInv(s, l, ops);
    LiveHandleRoot(e, k, h);
    LiveHandleRoot(e, k, h');
    OnePath(e.ram.mem, k.own, RootOf(e, h), p, d, RootOf(e, h'), p', d');
    if h != h' {
      DistinctHandles(e, k, h, h');
    }
    WalkOwned(e.ram.mem, k.own, RootOf(e, h), p, d);
    TablesNotInSupply(e.ram, k, At(e.ram.mem, RootOf(e, h), p, d).value);
  }

  lemma TablesNotInSupply(s: Ram, l: Ledger, f: PhysAddr)
    requires Balanced(s, l) && f in l.own.nodes
    ensures f !in s.supply.free && f !in s.supply.pending && f !in l.dropped
  {
  }

  // ---- Lifetimes ------------------------------------------------------------

  /** The run never destroys this space; destroying the kernel space does nothing. */
  predicate Spared(ops: seq<Op>, h: Handle) {
    h == KernelHandle || Destroy(h) !in ops
  }

  lemma EditKeepsSlots(s: State, op: Op)
    requires op.Map? || op.Unmap? || op.Protect?
    ensures Step(s, op).slots == s.slots && Step(s, op).kernel == s.kernel
  {
  }

  lemma NewKeepsHandle(s: State, h: Handle)
    requires SlotsOk(s.slots) && LiveHandle(s, h)
    ensures LiveHandle(NewSpace(s).0, h) && RootOf(NewSpace(s).0, h) == RootOf(s, h)
  {
  }

  lemma DestroyKeepsHandle(s: State, g: Handle, h: Handle)
    requires SlotsOk(s.slots) && LiveHandle(s, h) && LiveHandle(s, g) && (g == h ==> h == KernelHandle)
    ensures LiveHandle(DestroySpace(s, g), h) && RootOf(DestroySpace(s, g), h) == RootOf(s, h)
  {
  }

  lemma StepKeepsHandle(s: State, l: Ledger, op: Op, h: Handle)
    requires Inv(s, l) && Allowed(s, op) && LiveHandle(s, h) && Spared([op], h)
    ensures LiveHandle(Step(s, op), h) && RootOf(Step(s, op), h) == RootOf(s, h)
  {
    match op
    case New => NewKeepsHandle(s, h);
    case Destroy(g) =>
      assert Destroy(g) in [op];
      DestroyKeepsHandle(s, g, h);
    case Map(_, _, _, _) => EditKeepsSlots(s, op);
    case Unmap(_, _) => EditKeepsSlots(s, op);
    case Protect(_, _, _) => EditKeepsSlots(s, op);
  }

  /** A spared space keeps its root, its tables, and the links in its root. */
  lemma {:induction false} RunKeepsSpace(s: State, l: Ledger, ops: seq<Op>, h: Handle, p: Path, d: nat, i: Index)
    requires Inv(s, l) && AllowedRun(s, ops) && LiveHandle(s, h) && Spared(ops, h) && d <= |p| && d <= 3
    ensures var e := Run(s, ops);
            var r := RootOf(s, h);
            && LiveHandle(e, h) && RootOf(e, h) == r
            && (At(s.ram.mem, r, p, d).Some? ==> At(e.ram.mem, r, p, d) == At(s.ram.mem, r, p, d))
            && (Rd(s.ram.mem, r, i).attr.present ==> Rd(e.ram.mem, r, i) == Rd(s.ram.mem, r, i))
    decreases |ops|
  {
    if ops != [] {
      var init, op := ops[..|ops| - 1], ops[|ops| - 1];
      var e, k := Run(s, init), LedgerRun(s, l, init);
      AllowedPrefix(s, ops);
      RunKeepsInv(s, l, init);
      RunKeepsSpace(s, l, init, h, p, d, i);
      StepKeepsHandle(e, k, op, h);
      StepKeepsInv(e, k, op);
      LiveHandleRoot(e, k, h);
      assert SameTable(e.ram.mem, Step(e, op).ram.mem, k.own, RootOf(s, h), p, d);
      assert SameEntry(e.ram.mem, Step(e, op).ram.mem, k.own, RootOf(s, h), i);
    }
  }

  /** With its last-level table in place a map takes no frame and cannot run out of memory. */
  lemma PresentTableSuffices(s: Ram, r: PhysAddr, p: Page, q: Page, e: Entry)
    requires At(s.mem, r, p, 3).Some? && q[..3] == p[..3]
    ensures MapPage(s, r, q, e).1 != Err(OutOfMemory) && MapPage(s, r, q, e).0.supply == s.supply
  {
    AtPrefix(s.mem, r, p, q, 3);
    EnsurePathFinds(s, r, q, e.attr.user);
  }

  /**
   Linked tables survive: once the last-level table of a 2 MiB region exists in a
   space, no map in that region runs out of memory while the space lives.
   */
  lemma TablesSurvive(s: State, l: Ledger, ops: seq<Op>, h: Handle, page: Page, v: bv64, p: bv64, flags: MapFlags)
    requires Inv(s, l) && AllowedRun(s, ops) && LiveHandle(s, h) && Spared(ops, h)
    requires At(s.ram.mem, RootOf(s, h), page, 3).Some? && PageOf(v)[..3] == page[..3]
    ensures Map4K(Run(s, ops), h, v, p, flags).1 != Err(OutOfMemory)
    ensures Map4K(Run(s, ops), h, v, p, flags).0.ram.supply == Run(s, ops).ram.supply
  {
    RunKeepsSpace(s, l, ops, h, page, 3, 0);
    PresentTableSuffices(Run(s, ops).ram, RootOf(s, h), page, PageOf(v), LeafEntry(p, flags, Run(s, ops).nxe));
  }

  /** Mapping one page of the region is enough to have the table. */
  lemma MappedRegionHasTable(s: State, l: Ledger, h: Handle, v: bv64, p: bv64, flags: MapFlags)
    requires Inv(s, l) && Allowed(s, Map(h, v, p, flags)) && Map4K(s, h, v, p, flags).1.Ok?
    ensures At(Map4K(s, h, v, p, flags).0.ram.mem, RootOf(s, h), PageOf(v), 3).Some?
  {
    LiveHandleRoot(s, l, h);
    MapRefinesUpdate(s.ram, l, RootOf(s, h), PageOf(v), LeafEntry(p, flags, s.nxe));
  }

  /**
   Kernel-half sharing persists: an entry at index 256 or above that the kernel root
   had when a space was created is the same word in both roots for the whole life of
   the space, so that both see the same binding for every page under it.
   */
  lemma SharingPersists(s: State, l: Ledger, ops: seq<Op>, i: Index, page: Page)
    requires Inv(s, l) && NewSpace(s).1.Ok? && AllowedRun(NewSpace(s).0, ops) && Spared(ops, NewSpace(s).1.value)
    requires i >= KERNEL_PML4_START && Rd(s.ram.mem, s.kernel, i).attr.present && page[0] == i
    ensures var (n, h) := NewSpace(s);
            var e := Run(n, ops);
            && LiveHandle(e, h.value)
            && Rd(e.ram.mem, RootOf(e, h.value), i) == Rd(s.ram.mem, s.kernel, i) == Rd(e.ram.mem, RootOf(e, KernelHandle), i)
            && Leaf(e.ram.mem, RootOf(e, h.value), page) == Leaf(e.ram.mem, RootOf(e, KernelHandle), page)
            && Walk(e.ram.mem, RootOf(e, h.value), page) == Walk(e.ram.mem, RootOf(e, KernelHandle), page)
  {
    var (n, h) := NewSpace(s);
    SharedAtCreation(s, l, i);
    NewKeepsInv(s, l);
    RunKeepsSpace(n, NewLedger(s, l), ops, h.value, [], 0, i);
    RunKeepsSpace(n, NewLedger(s, l), ops, KernelHandle, [], 0, i);
    var e := Run(n, ops);
    SameEntrySameWalk(e.ram.mem, RootOf(e, h.value), RootOf(e, KernelHandle), page, 3);
  }

  /** A new space starts out with the kernel's entry, and the kernel keeps it. */
  lemma SharedAtCreation(s: State, l: Ledger, i: Index)
    requires Inv(s, l) && NewSpace(s).1.Ok? && i >= KERNEL_PML4_START
    ensures var (n, h) := NewSpace(s);
            && LiveHandle(n, h.value) && n.kernel == s.kernel
            && Rd(n.ram.mem, RootOf(n, h.value), i) == Rd(s.ram.mem, s.kernel, i) == Rd(n.ram.mem, n.kernel, i)
  {
    AllocSlotExact(s.slots, Alloc(s.ram.supply).1.value);
    NewRootShares(s.ram, l, i);
  }

  lemma NewRootShares(s: Ram, l: Ledger, i: Index)
    requires Balanced(s, l) && Alloc(s.supply).1.Some? && i >= KERNEL_PML4_START
    ensures var f, k := Alloc(s.supply).1.value, l.own.kernel;
            Rd(NewRoot(s.mem, k, f), f, i) == Rd(s.mem, k, i) == Rd(NewRoot(s.mem, k, f), k, i)
  {
    var f, k := Alloc(s.supply).1.value, l.own.kernel;
    AllocKeepsPartition(s.supply, l.all, Taken(l), l.dropped);
    assert Live(l.own, k);
    NewRootReads(s.mem, k, f, f, i);
    NewRootReads(s.mem, k, f, k, i);
  }

  // ---- Destruction ----------------------------------------------------------

  /**
   What destruction returns: nothing for the kernel handle; otherwise the root and each
   lower-half table of the space, once each, and no table that another live space reaches.
   */
  lemma DestroyReturns(s: State, l: Ledger, h: Handle, h': Handle, p: Path, d: nat)
    requires Inv(s, l) && LiveHandle(s, h) && LiveHandle(s, h') && h' != h && d <= |p| && d <= 3
    ensures h == KernelHandle ==> DestroySpace(s, h) == s
    ensures h != KernelHandle ==>
              var order := DestroyOrder(s.ram.mem, RootOf(s, h));
              && DestroySpace(s, h).ram == Ram(s.ram.mem, FreeAll(s.ram.supply, order))
              && NoDuplicates(order) && Elements(order) == LowerTables(l.own, RootOf(s, h))
              && (At(s.ram.mem, RootOf(s, h'), p, d).Some? ==> At(s.ram.mem, RootOf(s, h'), p, d).value !in order)
  {
    if h != KernelHandle {
      var r, r' := RootOf(s, h), RootOf(s, h');
      LiveHandleRoot(s, l, h);
      LiveHandleRoot(s, l, h');
      DistinctHandles(s, l, h, h');
      DestroyExact(s.ram.mem, l.own, r);
      if At(s.ram.mem, r', p, d).Some? {
        WalkOwned(s.ram.mem, l.own, r', p, d);
        var f := At(s.ram.mem, r', p, d).value;
        assert f in DestroyOrder(s.ram.mem, r) <==> f in Elements(DestroyOrder(s.ram.mem, r));
      }
    }
  }
}
