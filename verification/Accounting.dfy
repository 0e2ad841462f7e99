/**
 What the operations take from the frame supply, and when a frame is lost for good.
 */
module Accounting {
  import opened Wrappers
  import opened Pte
  import opened FrameSupply
  import opened PageTree
  import opened TableEdits
  import opened PageMapper
  import opened Teardown
  import opened Creation
  import opened Slots
  import opened Machine
  import opened Runs
  import opened RegionCount
  import opened HardwareBits

  // ---- Running out of memory ------------------------------------------------

  /** How many frames the supply can still hand out. */
  function Available(s: Supply): nat {
    |s.free| + |s.pending|
  }

  /** How many tables are missing on the path of a page, from table `f` at depth `d` on. */
  function Missing(m: Memory, f: PhysAddr, page: Page, d: nat): nat
    requires d <= 3
    decreases 3 - d
  {
    if d == 3 then 0
    else if !Rd(m, f, page[d]).attr.present then 3 - d
    else Missing(m, Rd(m, f, page[d]).target, page, d + 1)
  }

  /** From `s` to `s'` as many frames were taken as tables are missing from `f` on, or the supply was too small. */
  predicate Paid(s: Ram, f: PhysAddr, page: Page, d: nat, s': Ram, t: Result<PhysAddr>, d': nat)
    requires d <= 3 && d' <= 3
  {
    var need := Missing(s.mem, f, page, d);
    && (t.Err? ==> Available(s.supply) < need)
    && (t.Ok? ==> need + Available(s'.supply) == Missing(s'.mem, t.value, page, d') + Available(s.supply))
  }

  /** One descent takes a frame if and only if the next table is missing. */
  lemma EnsurePays(s: Ram, l: Ledger, r: PhysAddr, page: Page, d: nat, user: bool)
    requires Balanced(s, l) && Live(l.own, r) && d < 3 && At(s.mem, r, page, d).Some? && SmallPath(s.mem, r, page)
    ensures var f := At(s.mem, r, page, d).value;
            var (s', t) := EnsureTable(s, f, page[d], user);
            Paid(s, f, page, d, s', t, d + 1)
  {
    var f := At(s.mem, r, page, d).value;
    WalkOwned(s.mem, l.own, r, page, d);
    if !Rd(s.mem, f, page[d]).attr.present && Alloc(s.supply).1.Some? {
      EnsureTableCanLink(s, l, f, page[d]);
      LinkReads(s.mem, l.own, f, page[d], Alloc(s.supply).1.value, user);
    }
  }

  /** Payments add up. */
  lemma PaidInTurn(s: Ram, f: PhysAddr, page: Page, d: nat, s1: Ram, t1: PhysAddr, d1: nat, s2: Ram, t2: Result<PhysAddr>, d2: nat)
    requires d <= 3 && d1 <= 3 && d2 <= 3
    requires Paid(s, f, page, d, s1, Ok(t1), d1) && Paid(s1, t1, page, d1, s2, t2, d2)
    ensures Paid(s, f, page, d, s2, t2, d2)
  {
  }

  lemma FirstDescent(s: Ram, l: Ledger, r: PhysAddr, page: Page, user: bool)
    requires Balanced(s, l) && Live(l.own, r) && SmallPath(s.mem, r, page)
    ensures var (s1, t) := EnsureTable(s, r, page[0], user);
            var l1 := EnsureLedger(s, l, r, page[0]);
            Grows(s, l, s1, l1) && Reached(s1, l1, r, page, 1, t) && Paid(s, r, page, 0, s1, t, 1)
  {
    assert At(s.mem, r, page, 0) == Some(r);
    EnsurePays(s, l, r, page, 0, user);
    EnsureOnPath(s, l, r, page, 0, user);
  }

  lemma EnsurePdPays(s: Ram, l: Ledger, r: PhysAddr, page: Page, user: bool)
    requires Balanced(s, l) && Live(l.own, r) && SmallPath(s.mem, r, page)
    ensures var (s', t) := EnsurePd(s, r, page, user); Paid(s, r, page, 0, s', t, 2)
  {
    FirstDescent(s, l, r, page, user);
    var (s1, pdpt) := EnsureTable(s, r, page[0], user);
    if pdpt.Ok? {
      var l1 := EnsureLedger(s, l, r, page[0]);
      assert Live(l1.own, r);
      EnsurePays(s1, l1, r, page, 1, user);
      var (s2, pd) := EnsureTable(s1, pdpt.value, page[1], user);
      PaidInTurn(s, r, page, 0, s1, pdpt.value, 1, s2, pd, 2);
    }
  }

  lemma EnsurePathPays(s: Ram, l: Ledger, r: PhysAddr, page: Page, user: bool)
    requires Balanced(s, l) && Live(l.own, r) && SmallPath(s.mem, r, page)
    ensures var (s', t) := EnsurePath(s, r, page, user); Paid(s, r, page, 0, s', t, 3)
  {
    EnsurePdPays(s, l, r, page, user);
    EnsurePdGrows(s, l, r, page, user);
    var (s2, pd) := EnsurePd(s, r, page, user);
    if pd.Ok? {
      var l2 := EnsurePdLedger(s, l, r, page, user);
      assert Live(l2.own, r);
      EnsurePays(s2, l2, r, page, 2, user);
      var (s3, pt) := EnsureTable(s2, pd.value, page[2], user);
      PaidInTurn(s, r, page, 0, s2, pd.value, 2, s3, pt, 3);
    }
  }

  /**
   A map runs out of memory if and only if the supply holds fewer frames than tables
   are missing on the path; otherwise it takes exactly that many.
   */
  lemma MapRunsOutIff(s: Ram, l: Ledger, r: PhysAddr, page: Page, e: Entry)
    requires Balanced(s, l) && Live(l.own, r) && SmallPath(s.mem, r, page)
    ensures var (s', res) := MapPage(s, r, page, e);
            var need := Missing(s.mem, r, page, 0);
            && (res == Err(OutOfMemory) <==> Available(s.supply) < need)
            && (res != Err(OutOfMemory) ==> Available(s'.supply) == Available(s.supply) - need)
  {
    EnsurePathPays(s, l, r, page, e.attr.user);
    EnsurePathGrows(s, l, r, page, e.attr.user);
  }

  // ---- Losing frames --------------------------------------------------------

  /** The root has a link in the upper half to a table that the kernel root does not link there. */
  ghost predicate ForksUpperHalf(m: Memory, kernel: PhysAddr, r: PhysAddr) {
    exists i: Index :: i >= KERNEL_PML4_START && Link(Rd(m, r, i)) && !SameLink(Rd(m, r, i), Rd(m, kernel, i))
  }

  /** A link in the upper half of a root leads to a private table if and only if the kernel root does not have it. */
  lemma UpperLinkPrivate(m: Memory, g: Ownership, r: PhysAddr, i: Index)
    requires Tree(m, g) && r in g.spaces && i >= KERNEL_PML4_START && Link(Rd(m, r, i))
    ensures var t := Rd(m, r, i).target;
            t in g.nodes && g.nodes[t].path == [i]
            && g.nodes[t].root == if SameLink(Rd(m, r, i), Rd(m, g.kernel, i)) then g.kernel else r
  {
    assert Live(g, r) && Live(g, g.kernel);
    assert LinkOwned(m, g, r, i) && LinkOwned(m, g, g.kernel, i);
  }

  /** Below a shared entry a space owns nothing. */
  lemma PrivateBelowFork(m: Memory, g: Ownership, r: PhysAddr, f: PhysAddr)
    requires Tree(m, g) && r in g.spaces && f in PrivateUpperTables(g, r)
    ensures var i := g.nodes[f].path[0];
            i >= KERNEL_PML4_START && Link(Rd(m, r, i)) && !SameLink(Rd(m, r, i), Rd(m, g.kernel, i))
  {
    var p := g.nodes[f].path;
    assert Live(g, r) && Live(g, g.kernel);
    assert Placed(m, g, f);
    NodeReached(m, g, f);
    AtSomeBelow(m, r, p, |p|, 1);
    assert At(m, r, p, 0) == Some(r);
    if SameLink(Rd(m, r, p[0]), Rd(m, g.kernel, p[0])) {
      SameEntrySameWalk(m, r, g.kernel, p, |p|);
      WalkOwned(m, g, g.kernel, p, |p|);
    }
  }

  /** A space owns upper-half tables if and only if its root links a table there that the kernel root does not link. */
  lemma PrivateUpperIff(m: Memory, g: Ownership, r: PhysAddr)
    requires Tree(m, g) && r in g.spaces
    ensures PrivateUpperTables(g, r) != {} <==> ForksUpperHalf(m, g.kernel, r)
  {
    if f :| f in PrivateUpperTables(g, r) {
      PrivateBelowFork(m, g, r, f);
    }
    if i: Index :| i >= KERNEL_PML4_START && Link(Rd(m, r, i)) && !SameLink(Rd(m, r, i), Rd(m, g.kernel, i)) {
      UpperLinkPrivate(m, g, r, i);
      assert Rd(m, r, i).target in PrivateUpperTables(g, r);
    }
  }

  /** The steps that lose a frame: a space created with all slots taken, a space destroyed that overflows the stack or forks the upper half. */
  ghost predicate Loses(s: State, op: Op) {
    match op
    case New => Alloc(s.ram.supply).1.Some? && FirstUnused(s.slots, 0).None?
    case Destroy(h) =>
      h != KernelHandle &&
      (|| |s.ram.supply.free| + |DestroyOrder(s.ram.mem, RootOf(s, h))| > MAX_FREE_FRAMES
       || ForksUpperHalf(s.ram.mem, s.kernel, RootOf(s, h)))
    case _ => false
  }

  /** Accessed and dirty bits have no part in it. */
  lemma SimilarLoses(s: State, s': State, op: Op)
    requires SimilarStates(s, s')
    ensures Loses(s', op) == Loses(s, op)
  {
    if op.Destroy? {
      var m, m', r := s.ram.mem, s'.ram.mem, RootOf(s, op.h);
      SweepSimilar(m, m', r, 0, 0);
      SimilarForks(m, m', s.kernel, r);
    }
  }

  lemma SimilarForks(m: Memory, m': Memory, kernel: PhysAddr, r: PhysAddr)
    requires Similar(m, m')
    ensures ForksUpperHalf(m', kernel, r) == ForksUpperHalf(m, kernel, r)
  {
    forall i: Index
      ensures Link(Rd(m', r, i)) == Link(Rd(m, r, i))
      ensures SameLink(Rd(m', r, i), Rd(m', kernel, i)) == SameLink(Rd(m, r, i), Rd(m, kernel, i))
    {
      assert SimilarAt(m, m', r, i) && SimilarAt(m, m', kernel, i);
    }
  }

  /** Of a batch something is lost if and only if it does not fit on the stack. */
  lemma BatchLostIff(s: Supply, fs: seq<PhysAddr>)
    requires |s.free| <= MAX_FREE_FRAMES
    ensures Elements(fs[Room(s, fs)..]) == {} <==> |s.free| + |fs| <= MAX_FREE_FRAMES
  {
    if |s.free| + |fs| > MAX_FREE_FRAMES {
      assert fs[Room(s, fs)..][0] in Elements(fs[Room(s, fs)..]);
    }
  }

  /** What a destruction adds to the lost frames was held before. */
  lemma LostWereHeld(s: State, l: Ledger, r: PhysAddr)
    requires Balanced(s.ram, l) && r in l.own.spaces
    ensures var order := DestroyOrder(s.ram.mem, r);
            && Elements(order[Room(s.ram.supply, order)..]) <= Taken(l) && PrivateUpperTables(l.own, r) <= Taken(l)
            && Taken(l) !! l.dropped
  {
    var order := DestroyOrder(s.ram.mem, r);
    DestroyExact(s.ram.mem, l.own, r);
    SpaceTablesTaken(l, r);
    SplitElements(order, Room(s.ram.supply, order));
  }

  lemma DestroyLosesIff(s: State, l: Ledger, h: Handle)
    requires Inv(s, l) && LiveHandle(s, h)
    ensures l.dropped <= DestroyLedger(s, l, h).dropped
    ensures DestroyLedger(s, l, h).dropped != l.dropped <==> Loses(s, Destroy(h))
  {
    if h != KernelHandle {
      var r := RootOf(s, h);
      var order := DestroyOrder(s.ram.mem, r);
      LiveHandleRoot(s, l, h);
      LostWereHeld(s, l, r);
      BatchLostIff(s.ram.supply, order);
      PrivateUpperIff(s.ram.mem, l.own, r);
      AddedOrNot(l.dropped, Elements(order[Room(s.ram.supply, order)..]), PrivateUpperTables(l.own, r), Taken(l));
    }
  }

  lemma {:induction false} CountElements(fs: seq<PhysAddr>)
    requires NoDuplicates(fs)
    ensures |Elements(fs)| == |fs|
    decreases |fs|
  {
    if fs == [] {
      assert Elements(fs) == {};
    } else {
      var init, last := fs[..|fs| - 1], fs[|fs| - 1];
      CountElements(init);
      assert fs == init + [last];
      assert Elements(fs) == Elements(init) + {last};
    }
  }

  /** Destruction returns as many frames as the space has tables in its lower half. */
  lemma OrderLength(m: Memory, g: Ownership, r: PhysAddr)
    requires Tree(m, g) && r in g.spaces
    ensures |DestroyOrder(m, r)| == |LowerTables(g, r)|
  {
    DestroyExact(m, g, r);
    CountElements(DestroyOrder(m, r));
  }

  /**
   The same in terms of what was mapped.  After any run from the creation of a space
   in which none of its lower-half maps ran out of memory, destroying it loses frames
   if and only if one table for each distinct 512 GiB, 1 GiB and 2 MiB region ever
   mapped, and the root, do not fit on the stack, or the space forks the upper half.
   */
  lemma LosesByRegions(s: State, l: Ledger, ops: seq<Op>)
    requires Inv(s, l) && NewSpace(s).1.Ok?
    requires var (n, h) := NewSpace(s);
             AllowedRun(n, ops) && Spared(ops, h.value) && NeverStarved(n, ops, h.value)
    ensures var (n, h) := NewSpace(s);
            var e, mapped := Run(n, ops), EverMapped(n, ops, h.value);
            Loses(e, Destroy(h.value)) <==>
            || |e.ram.supply.free| + 1 + |Cut(mapped, 1)| + |Cut(mapped, 2)| + |Cut(mapped, 3)| > 128
            || ForksUpperHalf(e.ram.mem, e.kernel, RootOf(e, h.value))
  {
    var (n, h) := NewSpace(s);
    var k := NewLedger(s, l);
    NewKeepsInv(s, l);
    SharedAtCreation(s, l, KERNEL_PML4_START);
    TableCount(s, l, ops);
    RunKeepsInv(n, k, ops);
    RunKeepsSpace(n, k, ops, h.value, [], 0, 0);
    LiveHandleRoot(Run(n, ops), LedgerRun(n, k, ops), h.value);
    OrderLength(Run(n, ops).ram.mem, LedgerRun(n, k, ops).own, RootOf(n, h.value));
  }

  lemma AddedOrNot(dropped: set<PhysAddr>, a: set<PhysAddr>, b: set<PhysAddr>, out: set<PhysAddr>)
    requires a <= out && b <= out && out !! dropped
    ensures dropped + a + b == dropped <==> a == {} && b == {}
  {
    if f :| f in a + b {
      assert f in dropped + a + b && f !in dropped;
    }
  }

  lemma NewLosesIff(s: State, l: Ledger)
    requires Inv(s, l)
    ensures l.dropped <= NewLedger(s, l).dropped
    ensures NewLedger(s, l).dropped != l.dropped <==> Loses(s, New)
  {
    AllocKeepsPartition(s.ram.supply, l.all, Taken(l), l.dropped);
    var f := Alloc(s.ram.supply).1;
    if f.Some? {
      assert f.value in l.dropped + {f.value};
    }
  }

  /** A map forgets no table and loses no frame. */
  lemma MapLedgerGrows(s: State, l: Ledger, h: Handle, v: bv64, p: bv64, flags: MapFlags)
    requires Inv(s, l) && Allowed(s, Map(h, v, p, flags))
    ensures var l' := LedgerStep(s, l, Map(h, v, p, flags));
            Includes(l.own, l'.own) && l'.dropped == l.dropped
  {
    if Aligned4K(v) && Aligned4K(p) && IsCanonical(v) {
      LiveHandleRoot(s, l, h);
      EnsurePathGrows(s.ram, l, RootOf(s, h), PageOf(v), LeafEntry(p, flags, s.nxe).attr.user);
    }
  }

  /** A step loses a frame exactly in these cases, and never brings one back. */
  lemma StepLosesIff(s: State, l: Ledger, op: Op)
    requires Inv(s, l) && Allowed(s, op)
    ensures l.dropped <= LedgerStep(s, l, op).dropped
    ensures LedgerStep(s, l, op).dropped != l.dropped <==> Loses(s, op)
  {
    match op
    case New => NewLosesIff(s, l);
    case Destroy(h) => DestroyLosesIff(s, l, h);
    case Map(h, v, p, flags) => MapLedgerGrows(s, l, h, v, p, flags);
    case Unmap(_, _) =>
    case Protect(_, _, _) =>
  }

  ghost predicate LosesAt(s: State, ops: seq<Op>, n: nat) {
    n < |ops| && Loses(Run(s, ops[..n]), ops[n])
  }

  lemma LosesInPrefix(s: State, ops: seq<Op>, n: nat)
    requires ops != []
    ensures LosesAt(s, ops, n) <==>
            if n == |ops| - 1 then Loses(Run(s, ops[..|ops| - 1]), ops[|ops| - 1]) else LosesAt(s, ops[..|ops| - 1], n)
  {
    if n < |ops| - 1 {
      assert ops[..|ops| - 1][..n] == ops[..n];
    }
  }

  /** A whole run loses no frame if and only if none of its steps is one of those. */
  lemma {:induction false} RunLosesIff(s: State, l: Ledger, ops: seq<Op>)
    requires Inv(s, l) && AllowedRun(s, ops)
    ensures l.dropped <= LedgerRun(s, l, ops).dropped
    ensures LedgerRun(s, l, ops).dropped != l.dropped <==> exists n: nat :: LosesAt(s, ops, n)
    decreases |ops|
  {
    if ops != [] {
      var init, last := ops[..|ops| - 1], |ops| - 1;
      AllowedPrefix(s, ops);
      RunKeepsInv(s, l, init);
      RunLosesIff(s, l, init);
      StepLosesIff(Run(s, init), LedgerRun(s, l, init), ops[last]);
      forall n: nat ensures LosesAt(s, ops, n) <==> if n == last then Loses(Run(s, init), ops[last]) else LosesAt(s, init, n) {
        LosesInPrefix(s, ops, n);
      }
      LosesSomewhere(s, ops, init, last);
      assert LedgerRun(s, l, ops) == LedgerStep(Run(s, init), LedgerRun(s, l, init), ops[last]);
    }
  }

  lemma LosesSomewhere(s: State, ops: seq<Op>, init: seq<Op>, last: nat)
    requires last < |ops| && |init| == last
    requires forall n: nat :: LosesAt(s, ops, n) <==> if n == last then Loses(Run(s, init), ops[last]) else LosesAt(s, init, n)
    ensures (exists n: nat :: LosesAt(s, ops, n)) <==> (exists n: nat :: LosesAt(s, init, n)) || Loses(Run(s, init), ops[last])
  {
    if n: nat :| LosesAt(s, init, n) {
      assert LosesAt(s, ops, n);
    }
    if Loses(Run(s, init), ops[last]) {
      assert LosesAt(s, ops, last);
    }
    if n: nat :| LosesAt(s, ops, n) {
      assert n == last || LosesAt(s, init, n);
    }
  }

  /** A private table stays one as long as ownership only grows. */
  lemma PrivateStays(g: Ownership, g': Ownership, r: PhysAddr, f: PhysAddr)
    requires Includes(g, g') && f in PrivateUpperTables(g, r)
    ensures f in PrivateUpperTables(g', r)
  {
    assert f in g'.nodes;
  }

  /** The descents after the first only add to what it made. */
  lemma LaterDescentsGrow(s: Ram, l: Ledger, r: PhysAddr, page: Page, user: bool)
    requires Balanced(s, l) && Live(l.own, r) && SmallPath(s.mem, r, page) && EnsurePath(s, r, page, user).1.Ok?
    ensures Includes(EnsureLedger(s, l, r, page[0]).own, EnsurePathLedger(s, l, r, page, user).own)
  {
    FirstDescent(s, l, r, page, user);
    var (s1, pdpt) := EnsureTable(s, r, page[0], user);
    var l1 := EnsureLedger(s, l, r, page[0]);
    assert Live(l1.own, r);
    LastTwoDescents(s1, l1, r, page, pdpt.value, user);
  }

  lemma LastTwoDescents(s1: Ram, l1: Ledger, r: PhysAddr, page: Page, pdpt: PhysAddr, user: bool)
    requires Balanced(s1, l1) && Live(l1.own, r) && SmallPath(s1.mem, r, page) && At(s1.mem, r, page, 1) == Some(pdpt)
    ensures var (s2, pd) := EnsureTable(s1, pdpt, page[1], user);
            var l2 := EnsureLedger(s1, l1, pdpt, page[1]);
            pd.Ok? ==> Includes(l1.own, EnsureLedger(s2, l2, pd.value, page[2]).own)
  {
    EnsureOnPath(s1, l1, r, page, 1, user);
    var (s2, pd) := EnsureTable(s1, pdpt, page[1], user);
    if pd.Ok? {
      Descend(s1, l1, s2, EnsureLedger(s1, l1, pdpt, page[1]), r, page, 2, pd.value, user);
    }
  }

  /** Mapping the first page under an upper-half entry that a space lacks gives it a table of its own there. */
  lemma FirstTablePrivate(s: Ram, l: Ledger, r: PhysAddr, page: Page, user: bool)
    requires Balanced(s, l) && r in l.own.spaces && SmallPath(s.mem, r, page)
    requires page[0] >= KERNEL_PML4_START && !Rd(s.mem, r, page[0]).attr.present && EnsurePath(s, r, page, user).1.Ok?
    ensures PrivateUpperTables(EnsurePathLedger(s, l, r, page, user).own, r) != {}
  {
    assert Live(l.own, r);
    var l1 := EnsureLedger(s, l, r, page[0]);
    var f := Alloc(s.supply).1.value;
    LaterDescentsGrow(s, l, r, page, user);
    assert l1.own.nodes[f] == Node(r, r, [page[0]]);
    PrivateStays(l1.own, EnsurePathLedger(s, l, r, page, user).own, r, f);
  }

  /**
   A space that maps a page under an upper-half entry it did not inherit loses tables
   when it is destroyed, whenever that is.
   */
  lemma ForkedHalfIsLost(s: State, l: Ledger, h: Handle, v: bv64, p: bv64, flags: MapFlags, ops: seq<Op>)
    requires Inv(s, l) && LiveSlot(s.slots, h) && Allowed(s, Map(h, v, p, flags)) && Map4K(s, h, v, p, flags).1.Ok?
    requires PageOf(v)[0] >= KERNEL_PML4_START && !Rd(s.ram.mem, RootOf(s, h), PageOf(v)[0]).attr.present
    requires AllowedRun(Map4K(s, h, v, p, flags).0, ops) && Spared(ops, h)
    ensures Loses(Run(Map4K(s, h, v, p, flags).0, ops), Destroy(h))
  {
    var op := Map(h, v, p, flags);
    var n, k := Map4K(s, h, v, p, flags).0, LedgerStep(s, l, op);
    var r := RootOf(s, h);
    LiveHandleRoot(s, l, h);
    FirstTablePrivate(s.ram, l, r, PageOf(v), LeafEntry(p, flags, s.nxe).attr.user);
    StepKeepsInv(s, l, op);
    EditKeepsSlots(s, op);
    LiveHandleRoot(n, k, h);
    PrivateUpperIff(n.ram.mem, k.own, r);
    ForkStays(n, k, ops, h);
  }

  /** A fork of the upper half is never undone: present root entries are not rewritten, neither the space's nor the kernel's. */
  lemma ForkStays(s: State, l: Ledger, ops: seq<Op>, h: Handle)
    requires Inv(s, l) && AllowedRun(s, ops) && LiveSlot(s.slots, h) && Spared(ops, h)
    requires PrivateUpperTables(l.own, RootOf(s, h)) != {}
    ensures ForksUpperHalf(Run(s, ops).ram.mem, Run(s, ops).kernel, RootOf(Run(s, ops), h))
  {
    var e := Run(s, ops);
    RunKeepsPrivate(s, l, ops, h);
    RunKeepsInv(s, l, ops);
    RunKeepsSpace(s, l, ops, h, [], 0, 0);
    LiveHandleRoot(e, LedgerRun(s, l, ops), h);
    PrivateUpperIff(e.ram.mem, LedgerRun(s, l, ops).own, RootOf(e, h));
  }

  lemma {:induction false} RunKeepsPrivate(s: State, l: Ledger, ops: seq<Op>, h: Handle)
    requires Inv(s, l) && AllowedRun(s, ops) && LiveSlot(s.slots, h) && Spared(ops, h)
    requires PrivateUpperTables(l.own, RootOf(s, h)) != {}
    ensures PrivateUpperTables(LedgerRun(s, l, ops).own, RootOf(s, h)) != {}
    decreases |ops|
  {
    if ops != [] {
      var init, op := ops[..|ops| - 1], ops[|ops| - 1];
      var e, k := Run(s, init), LedgerRun(s, l, init);
      AllowedPrefix(s, ops);
      RunKeepsInv(s, l, init);
      RunKeepsPrivate(s, l, init, h);
      RunKeepsSpace(s, l, init, h, [], 0, 0);
      assert op in ops;
      StepKeepsPrivate(e, k, op, h);
    }
  }

  lemma StepKeepsPrivate(s: State, l: Ledger, op: Op, h: Handle)
    requires Inv(s, l) && Allowed(s, op) && LiveSlot(s.slots, h) && op != Destroy(h)
    requires PrivateUpperTables(l.own, RootOf(s, h)) != {}
    ensures PrivateUpperTables(LedgerStep(s, l, op).own, RootOf(s, h)) != {}
  {
    var r := RootOf(s, h);
    var f :| f in PrivateUpperTables(l.own, r);
    match op
    case New => NewKeepsPrivate(s, l, r, f);
    case Destroy(h') => DestroyKeepsPrivate(s, l, h', h, f);
    case Map(h', v, p, flags) =>
      MapLedgerGrows(s, l, h', v, p, flags);
      PrivateStays(l.own, LedgerStep(s, l, op).own, r, f);
    case Unmap(_, _) =>
    case Protect(_, _, _) =>
  }

  lemma NewKeepsPrivate(s: State, l: Ledger, r: PhysAddr, f: PhysAddr)
    requires Inv(s, l) && f in PrivateUpperTables(l.own, r)
    ensures f in PrivateUpperTables(NewLedger(s, l).own, r)
  {
    AllocKeepsPartition(s.ram.supply, l.all, Taken(l), l.dropped);
  }

  lemma DestroyKeepsPrivate(s: State, l: Ledger, h': Handle, h: Handle, f: PhysAddr)
    requires Inv(s, l) && LiveHandle(s, h') && LiveHandle(s, h) && h' != h && f in PrivateUpperTables(l.own, RootOf(s, h))
    ensures f in PrivateUpperTables(DestroyLedger(s, l, h').own, RootOf(s, h))
  {
    DistinctHandles(s, l, h, h');
  }
}
