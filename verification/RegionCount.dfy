/**
 How many tables an address space owns: one for the root and one for each 512 GiB,
 1 GiB and 2 MiB region in which a page was ever mapped.
 */
module RegionCount {
  import opened Wrappers
  import opened Pte
  import opened FrameSupply
  import opened PageTree
  import opened PageMapper
  import opened Views
  import opened Teardown
  import opened Creation
  import opened Slots
  import opened Machine
  import opened Runs

  // ---- The tables a map adds ------------------------------------------------

  /** A table on the path of `page`, belonging to `r` or to the shared half. */
  predicate OnPathOf(n: Node, kernel: PhysAddr, r: PhysAddr, page: Page) {
    && 1 <= |n.path| <= 3 && n.path == page[..|n.path|]
    && (n.root == r || (n.root == kernel && page[0] >= KERNEL_PML4_START))
  }

  predicate AddedOnPath(g: Ownership, g': Ownership, r: PhysAddr, page: Page, f: PhysAddr) {
    f in g'.nodes && f !in g.nodes ==> OnPathOf(g'.nodes[f], g.kernel, r, page)
  }

  /** All tables of `g'` that `g` does not have lie on the path of `page`. */
  ghost predicate AddsOnPath(g: Ownership, g': Ownership, r: PhysAddr, page: Page) {
    forall f :: AddedOnPath(g, g', r, page, f)
  }

  lemma EnsureAddsOnPath(s: Ram, l: Ledger, s1: Ram, l1: Ledger, r: PhysAddr, page: Page, d: nat, t: PhysAddr)
    requires Balanced(s1, l1) && Includes(l.own, l1.own) && AddsOnPath(l.own, l1.own, r, page)
    requires Live(l.own, r) && d < 3 && At(s1.mem, r, page, d) == Some(t)
    ensures AddsOnPath(l.own, EnsureLedger(s1, l1, t, page[d]).own, r, page)
  {
    var l2 := EnsureLedger(s1, l1, t, page[d]);
    assert Live(l1.own, r);
    WalkOwned(s1.mem, l1.own, r, page, d);
    assert page[..d + 1] == page[..d] + [page[d]];
    forall f ensures AddedOnPath(l.own, l2.own, r, page, f) {
      assert AddedOnPath(l.own, l1.own, r, page, f);
    }
  }

  lemma MapAddsOnPath(s: Ram, l: Ledger, r: PhysAddr, page: Page, user: bool)
    requires Balanced(s, l) && Live(l.own, r) && SmallPath(s.mem, r, page)
    ensures AddsOnPath(l.own, EnsurePathLedger(s, l, r, page, user).own, r, page)
  {
    forall f ensures AddedOnPath(l.own, l.own, r, page, f) { }
    assert At(s.mem, r, page, 0) == Some(r);
    EnsureAddsOnPath(s, l, s, l, r, page, 0, r);
    EnsureOnPath(s, l, r, page, 0, user);
    var (s1, pdpt) := EnsureTable(s, r, page[0], user);
    var l1 := EnsureLedger(s, l, r, page[0]);
    if pdpt.Ok? {
      EnsureAddsOnPath(s, l, s1, l1, r, page, 1, pdpt.value);
      EnsurePdGrows(s, l, r, page, user);
      var (s2, pd) := EnsurePd(s, r, page, user);
      if pd.Ok? {
        EnsureAddsOnPath(s, l, s2, EnsurePdLedger(s, l, r, page, user), r, page, 2, pd.value);
      }
    }
  }

  // ---- The positions of a space's tables ------------------------------------

  ghost function LowerPaths(g: Ownership, r: PhysAddr): set<Path> {
    set f | f in LowerTables(g, r) :: g.nodes[f].path
  }

  /** A position holds one table, so counting tables is counting positions. */
  lemma {:induction false} CountTables(m: Memory, g: Ownership, r: PhysAddr, fs: set<PhysAddr>)
    requires Tree(m, g) && fs <= LowerTables(g, r)
    ensures |set f | f in fs :: g.nodes[f].path| == |fs|
    decreases |fs|
  {
    var paths := set f | f in fs :: g.nodes[f].path;
    if fs == {} {
      assert paths == {};
    } else {
      var f :| f in fs;
      var rest := fs - {f};
      CountTables(m, g, r, rest);
      var restPaths := set t | t in rest :: g.nodes[t].path;
      NodeReached(m, g, f);
      forall t | t in rest ensures g.nodes[t].path != g.nodes[f].path {
        NodeReached(m, g, t);
      }
      assert paths == restPaths + {g.nodes[f].path};
    }
  }

  lemma NewPathsElsewhere(g: Ownership, g': Ownership, r: PhysAddr, page: Page, r0: PhysAddr)
    requires Includes(g, g') && AddsOnPath(g, g', r, page) && r0 != g.kernel
    requires r0 != r || page[0] >= KERNEL_PML4_START
    ensures LowerTables(g', r0) == LowerTables(g, r0) && LowerPaths(g', r0) == LowerPaths(g, r0)
  {
    forall f ensures f in LowerTables(g', r0) <==> f in LowerTables(g, r0) {
      assert AddedOnPath(g, g', r, page, f);
      if f in g.nodes { assert f in g'.nodes; }
    }
    forall f | f in LowerTables(g, r0) ensures g'.nodes[f] == g.nodes[f] {
      assert f in g'.nodes;
    }
  }

  /** The positions on the path of a page. */
  ghost function Prefixes(page: Page): set<Path> {
    {page[..1], page[..2], page[..3]}
  }

  lemma PathNode(m: Memory, g: Ownership, r: PhysAddr, page: Page, d: nat)
    requires Tree(m, g) && Live(g, r) && page[0] < KERNEL_PML4_START && 1 <= d <= 3 && At(m, r, page, d).Some?
    ensures page[..d] in LowerPaths(g, r)
  {
    WalkOwned(m, g, r, page, d);
    var f := At(m, r, page, d).value;
    assert g.nodes[f].path[0] == page[0];
    assert f in LowerTables(g, r);
  }

  lemma OldPathsStay(g: Ownership, g': Ownership, r: PhysAddr)
    requires Includes(g, g')
    ensures LowerPaths(g, r) <= LowerPaths(g', r)
  {
    forall f | f in LowerTables(g, r) ensures g.nodes[f].path in LowerPaths(g', r) {
      assert f in g'.nodes && f in LowerTables(g', r);
    }
  }

  /** A descent into the lower half that does not run out of memory leaves the old positions and those of the page. */
  lemma NewPathsHere(s: Ram, l: Ledger, r: PhysAddr, page: Page, user: bool)
    requires Balanced(s, l) && Live(l.own, r) && SmallPath(s.mem, r, page) && page[0] < KERNEL_PML4_START
    requires EnsurePath(s, r, page, user).1.Ok?
    ensures LowerPaths(EnsurePathLedger(s, l, r, page, user).own, r) == LowerPaths(l.own, r) + Prefixes(page)
  {
    var s', g' := EnsurePath(s, r, page, user).0, EnsurePathLedger(s, l, r, page, user).own;
    EnsurePathGrows(s, l, r, page, user);
    MapAddsOnPath(s, l, r, page, user);
    assert Live(g', r);
    BoundPathsTaken(s'.mem, g', r, page);
    OldPathsStay(l.own, g', r);
    NewPathsOnly(l.own, g', r, page);
  }

  lemma NewPathsOnly(g: Ownership, g': Ownership, r: PhysAddr, page: Page)
    requires Includes(g, g') && AddsOnPath(g, g', r, page)
    ensures LowerPaths(g', r) <= LowerPaths(g, r) + Prefixes(page)
  {
    forall f | f in LowerTables(g', r) ensures g'.nodes[f].path in LowerPaths(g, r) + Prefixes(page) {
      assert AddedOnPath(g, g', r, page, f);
      if f in g.nodes {
        assert f in g'.nodes && f in LowerTables(g, r);
      }
    }
  }

  /** With the table of a page in place the positions of the page are all taken. */
  lemma BoundPathsTaken(m: Memory, g: Ownership, r: PhysAddr, page: Page)
    requires Tree(m, g) && Live(g, r) && page[0] < KERNEL_PML4_START && At(m, r, page, 3).Some?
    ensures Prefixes(page) <= LowerPaths(g, r)
  {
    AtSomeBelow(m, r, page, 3, 1);
    AtSomeBelow(m, r, page, 3, 2);
    PathNode(m, g, r, page, 1);
    PathNode(m, g, r, page, 2);
    PathNode(m, g, r, page, 3);
  }

  // ---- Steps ----------------------------------------------------------------

  /** A map of a lower-half page of `h`. */
  predicate MapsBelow(op: Op, h: Handle) {
    op.Map? && op.h == h && PageOf(op.v)[0] < KERNEL_PML4_START
  }

  /** The page a step newly maps in the lower half of `h`. */
  ghost function NewlyMapped(s: State, op: Op, h: Handle): set<Page> {
    if MapsBelow(op, h) && Map4K(s, h, op.v, op.p, op.flags).1.Ok? then {PageOf(op.v)} else {}
  }

  /** The regions of size 512 GiB (d = 1), 1 GiB (d = 2) or 2 MiB (d = 3) that hold one of the pages. */
  ghost function Cut(pages: set<Page>, d: nat): set<Path>
    requires d <= 4
  {
    set p | p in pages :: p[..d]
  }

  ghost function Regions(pages: set<Page>): set<Path> {
    Cut(pages, 1) + Cut(pages, 2) + Cut(pages, 3)
  }

  lemma RegionsOfNone()
    ensures Regions({}) == {}
  {
  }

  lemma RegionsOfOne(page: Page)
    ensures Regions({page}) == Prefixes(page)
  {
  }

  lemma RegionsUnion(a: set<Page>, b: set<Page>)
    ensures Regions(a + b) == Regions(a) + Regions(b)
  {
  }

  lemma MapPaths(s: State, l: Ledger, op: Op, h: Handle)
    requires Inv(s, l) && Allowed(s, op) && op.Map? && LiveSlot(s.slots, h)
    requires MapsBelow(op, h) ==> Map4K(s, h, op.v, op.p, op.flags).1 != Err(OutOfMemory)
    ensures LowerPaths(LedgerStep(s, l, op).own, RootOf(s, h)) ==
            LowerPaths(l.own, RootOf(s, h)) + Regions(NewlyMapped(s, op, h))
  {
    LiveHandleRoot(s, l, h);
    RegionsOfNone();
    if Aligned4K(op.v) && Aligned4K(op.p) && IsCanonical(op.v) {
      if MapsBelow(op, h) {
        MapPathsHere(s, l, op);
      } else {
        MapPathsElsewhere(s, l, op, h);
      }
    }
  }

  lemma MapPathsHere(s: State, l: Ledger, op: Op)
    requires Inv(s, l) && Allowed(s, op) && op.Map? && PageOf(op.v)[0] < KERNEL_PML4_START
    requires Aligned4K(op.v) && Aligned4K(op.p) && IsCanonical(op.v)
    requires Map4K(s, op.h, op.v, op.p, op.flags).1 != Err(OutOfMemory)
    ensures LowerPaths(LedgerStep(s, l, op).own, RootOf(s, op.h)) ==
            LowerPaths(l.own, RootOf(s, op.h)) + Regions(NewlyMapped(s, op, op.h))
  {
    LiveHandleRoot(s, l, op.h);
    RegionsOfNone();
    RegionsOfOne(PageOf(op.v));
    MapHere(s.ram, l, RootOf(s, op.h), PageOf(op.v), LeafEntry(op.p, op.flags, s.nxe));
  }

  lemma MapPathsElsewhere(s: State, l: Ledger, op: Op, h: Handle)
    requires Inv(s, l) && Allowed(s, op) && op.Map? && LiveSlot(s.slots, h) && !MapsBelow(op, h)
    requires Aligned4K(op.v) && Aligned4K(op.p) && IsCanonical(op.v)
    ensures LowerPaths(LedgerStep(s, l, op).own, RootOf(s, h)) == LowerPaths(l.own, RootOf(s, h))
  {
    LiveHandleRoot(s, l, op.h);
    LiveHandleRoot(s, l, h);
    if op.h != h {
      DistinctHandles(s, l, op.h, h);
    }
    MapElsewhere(s.ram, l, RootOf(s, op.h), PageOf(op.v), LeafEntry(op.p, op.flags, s.nxe).attr.user, RootOf(s, h));
  }

  lemma MapElsewhere(s: Ram, l: Ledger, r: PhysAddr, page: Page, user: bool, r0: PhysAddr)
    requires Balanced(s, l) && Live(l.own, r) && SmallPath(s.mem, r, page) && r0 != l.own.kernel
    requires r0 != r || page[0] >= KERNEL_PML4_START
    ensures LowerPaths(EnsurePathLedger(s, l, r, page, user).own, r0) == LowerPaths(l.own, r0)
  {
    EnsurePathGrows(s, l, r, page, user);
    MapAddsOnPath(s, l, r, page, user);
    NewPathsElsewhere(l.own, EnsurePathLedger(s, l, r, page, user).own, r, page, r0);
  }

  lemma MapHere(s: Ram, l: Ledger, r: PhysAddr, page: Page, e: Entry)
    requires Balanced(s, l) && Live(l.own, r) && SmallPath(s.mem, r, page) && page[0] < KERNEL_PML4_START
    requires e.attr.present && MapPage(s, r, page, e).1 != Err(OutOfMemory)
    ensures LowerPaths(MapLedger(s, l, r, page, e).own, r) ==
            LowerPaths(l.own, r) + if MapPage(s, r, page, e).1.Ok? then Prefixes(page) else {}
  {
    EnsurePathGrows(s, l, r, page, e.attr.user);
    NewPathsHere(s, l, r, page, e.attr.user);
    if MapPage(s, r, page, e).1.Err? {
      RefusedHasTable(s, l, r, page, e);
      BoundPathsTaken(s.mem, l.own, r, page);
    }
  }

  /** A map refused without running out of memory met a bound page. */
  lemma RefusedHasTable(s: Ram, l: Ledger, r: PhysAddr, page: Page, e: Entry)
    requires Balanced(s, l) && Live(l.own, r) && SmallPath(s.mem, r, page) && e.attr.present
    requires MapPage(s, r, page, e).1.Err? && MapPage(s, r, page, e).1 != Err(OutOfMemory)
    ensures At(s.mem, r, page, 3).Some?
  {
    MapRefinesUpdate(s, l, r, page, e);
    assert page in View(s.mem, r);
  }

  lemma StepPaths(s: State, l: Ledger, op: Op, h: Handle)
    requires Inv(s, l) && Allowed(s, op) && LiveSlot(s.slots, h) && op != Destroy(h)
    requires MapsBelow(op, h) ==> Map4K(s, h, op.v, op.p, op.flags).1 != Err(OutOfMemory)
    ensures LowerPaths(LedgerStep(s, l, op).own, RootOf(s, h)) ==
            LowerPaths(l.own, RootOf(s, h)) + Regions(NewlyMapped(s, op, h))
  {
    var r := RootOf(s, h);
    LiveHandleRoot(s, l, h);
    RegionsOfNone();
    match op
    case Map(_, _, _, _) => MapPaths(s, l, op, h);
    case New => NewPaths(s, l, r);
    case Destroy(h') =>
      if h' != KernelHandle {
        LiveHandleRoot(s, l, h');
        DistinctHandles(s, l, h, h');
        assert LowerTables(Evict(l.own, RootOf(s, h')), r) == LowerTables(l.own, r);
      }
    case Unmap(_, _) =>
    case Protect(_, _, _) =>
  }

  lemma NewPaths(s: State, l: Ledger, r: PhysAddr)
    requires Inv(s, l) && r in l.own.spaces
    ensures LowerPaths(NewLedger(s, l).own, r) == LowerPaths(l.own, r)
  {
    assert Live(l.own, r);
    var f := Alloc(s.ram.supply).1;
    AllocKeepsPartition(s.ram.supply, l.all, Taken(l), l.dropped);
    if f.Some? && FirstUnused(s.slots, 0).Some? {
      assert f.value !in l.own.nodes && f.value != r;
      assert LowerTables(Enrol(l.own, f.value), r) == LowerTables(l.own, r);
    }
  }

  // ---- Runs -----------------------------------------------------------------

  /** The lower-half pages successfully mapped in `h` at some time during the run. */
  ghost function EverMapped(s: State, ops: seq<Op>, h: Handle): set<Page> {
    if ops == [] then {}
    else EverMapped(s, ops[..|ops| - 1], h) + NewlyMapped(Run(s, ops[..|ops| - 1]), ops[|ops| - 1], h)
  }

  /** No lower-half map of `h` ran out of memory. */
  predicate NeverStarved(s: State, ops: seq<Op>, h: Handle) {
    forall n | 0 <= n < |ops| && MapsBelow(ops[n], h) ::
      Map4K(Run(s, ops[..n]), h, ops[n].v, ops[n].p, ops[n].flags).1 != Err(OutOfMemory)
  }

  lemma {:induction false} RunPaths(s: State, l: Ledger, ops: seq<Op>, h: Handle)
    requires Inv(s, l) && AllowedRun(s, ops) && LiveSlot(s.slots, h) && Spared(ops, h) && NeverStarved(s, ops, h)
    ensures LowerPaths(LedgerRun(s, l, ops).own, RootOf(s, h)) ==
            LowerPaths(l.own, RootOf(s, h)) + Regions(EverMapped(s, ops, h))
    decreases |ops|
  {
    if ops == [] {
      RegionsOfNone();
    } else {
      var init, op := ops[..|ops| - 1], ops[|ops| - 1];
      var e, k := Run(s, init), LedgerRun(s, l, init);
      AllowedPrefix(s, ops);
      NeverStarvedPrefix(s, ops, h);
      RunPaths(s, l, init, h);
      RunKeepsInv(s, l, init);
      RunKeepsSpace(s, l, init, h, [], 0, 0);
      assert op in ops;
      StepPaths(e, k, op, h);
      RegionsUnion(EverMapped(s, init, h), NewlyMapped(e, op, h));
    }
  }

  lemma NeverStarvedPrefix(s: State, ops: seq<Op>, h: Handle)
    requires NeverStarved(s, ops, h) && ops != []
    ensures NeverStarved(s, ops[..|ops| - 1], h)
  {
    var init := ops[..|ops| - 1];
    forall n | 0 <= n < |init| && MapsBelow(init[n], h)
      ensures Map4K(Run(s, init[..n]), h, init[n].v, init[n].p, init[n].flags).1 != Err(OutOfMemory)
    {
      assert init[..n] == ops[..n] && MapsBelow(ops[n], h);
    }
  }

  /**
   The closed form.  After any run from the creation of a space in which none of its
   lower-half maps ran out of memory, it owns its root and one table for each distinct
   512 GiB, 1 GiB and 2 MiB region ever mapped, whatever was unmapped since.
   */
  lemma TableCount(s: State, l: Ledger, ops: seq<Op>)
    requires Inv(s, l) && NewSpace(s).1.Ok?
    requires var (n, h) := NewSpace(s);
             AllowedRun(n, ops) && Spared(ops, h.value) && NeverStarved(n, ops, h.value)
    ensures var (n, h) := NewSpace(s);
            var mapped := EverMapped(n, ops, h.value);
            |LowerTables(LedgerRun(n, NewLedger(s, l), ops).own, RootOf(n, h.value))| ==
            1 + |Cut(mapped, 1)| + |Cut(mapped, 2)| + |Cut(mapped, 3)|
  {
    var (n, h) := NewSpace(s);
    var k := NewLedger(s, l);
    var f := Alloc(s.ram.supply).1.value;
    var mapped := EverMapped(n, ops, h.value);
    AllocKeepsPartition(s.ram.supply, l.all, Taken(l), l.dropped);
    assert f !in l.own.nodes;
    NewKeepsInv(s, l);
    AllocSlotExact(s.slots, f);
    FreshSpacePaths(s.ram.mem, l.own, f);
    RunPaths(n, k, ops, h.value);
    RunKeepsInv(n, k, ops);
    CountTables(Run(n, ops).ram.mem, LedgerRun(n, k, ops).own, f, LowerTables(LedgerRun(n, k, ops).own, f));
    RegionsByLength(mapped);
  }

  lemma FreshSpacePaths(m: Memory, g: Ownership, f: PhysAddr)
    requires Tree(m, g) && f !in g.nodes
    ensures LowerPaths(Enrol(g, f), f) == {[]}
  {
    forall t | t in g.nodes ensures g.nodes[t].root != f {
      assert Placed(m, g, t);
    }
    assert LowerTables(Enrol(g, f), f) == {f};
  }

  lemma RegionsByLength(pages: set<Page>)
    ensures |{[]} + Regions(pages)| == 1 + |Cut(pages, 1)| + |Cut(pages, 2)| + |Cut(pages, 3)|
  {
  }
}
