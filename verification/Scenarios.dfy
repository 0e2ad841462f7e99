/**
 Scenarios that start in any state: how frames get lost, how a page stays closed to
 user mode, how a processor is left with a stale binding.
 */
module Scenarios {
  import opened Wrappers
  import opened Pte
  import opened FrameSupply
  import opened PageTree
  import opened PageMapper
  import opened Views
  import opened Teardown
  import opened Creation
  import opened Slots
  import opened Machine
  import opened Runs
  import opened RegionCount
  import opened Isolation
  import opened AccessRights
  import opened Accounting
  import opened Tlb

  // ---- The first address space ----------------------------------------------

  const FIRST := SlotHandle(0)

  /** No address space yet, and frames enough for a root and three tables. */
  ghost predicate Ready(s: State, l: Ledger) {
    Inv(s, l) && FirstUnused(s.slots, 0) == Some(0) && Available(s.ram.supply) >= 4
  }

  lemma FirstSpace(s: State, l: Ledger, i: Index)
    requires Ready(s, l)
    ensures var f, n := Alloc(s.ram.supply).1, NewSpace(s).0;
            && f.Some? && NewSpace(s).1 == Ok(FIRST) && Inv(n, NewLedger(s, l))
            && LiveSlot(n.slots, FIRST) && RootOf(n, FIRST) == f.value && n.kernel == s.kernel
            && Available(n.ram.supply) == Available(s.ram.supply) - 1
            && Rd(n.ram.mem, f.value, i) == if i >= KERNEL_PML4_START then Rd(s.ram.mem, s.kernel, i) else ZERO_ENTRY
  {
    NewKeepsInv(s, l);
    FirstSlot(s);
    FirstRoot(s.ram, l, i);
  }

  lemma FirstSlot(s: State)
    requires FirstUnused(s.slots, 0) == Some(0) && Available(s.ram.supply) > 0
    ensures var f, n := Alloc(s.ram.supply).1, NewSpace(s).0;
            && f.Some? && NewSpace(s).1 == Ok(FIRST) && LiveSlot(n.slots, FIRST) && RootOf(n, FIRST) == f.value
            && n.kernel == s.kernel && Available(n.ram.supply) == Available(s.ram.supply) - 1
            && n.ram.mem == NewRoot(s.ram.mem, s.kernel, f.value)
  {
  }

  lemma FirstRoot(s: Ram, l: Ledger, i: Index)
    requires Balanced(s, l) && Available(s.supply) > 0
    ensures var f := Alloc(s.supply).1;
            f.Some? && Rd(NewRoot(s.mem, l.own.kernel, f.value), f.value, i) ==
                       if i >= KERNEL_PML4_START then Rd(s.mem, l.own.kernel, i) else ZERO_ENTRY
  {
    AllocKeepsPartition(s.supply, l.all, Taken(l), l.dropped);
    assert Live(l.own, l.own.kernel);
    NewRootReads(s.mem, l.own.kernel, Alloc(s.supply).1.value, Alloc(s.supply).1.value, i);
  }

  /** With no table for the page and three frames left a map succeeds. */
  lemma MapSucceeds(s: State, l: Ledger, h: Handle, v: bv64, p: bv64, flags: MapFlags)
    requires Inv(s, l) && LiveHandle(s, h) && Available(s.ram.supply) >= 3
    requires Aligned4K(v) && Aligned4K(p) && IsCanonical(v)
    requires SmallPath(s.ram.mem, RootOf(s, h), PageOf(v)) && At(s.ram.mem, RootOf(s, h), PageOf(v), 3).None?
    ensures Allowed(s, Map(h, v, p, flags)) && Map4K(s, h, v, p, flags).1.Ok?
  {
    var r, page, e := RootOf(s, h), PageOf(v), LeafEntry(p, flags, s.nxe);
    LiveHandleRoot(s, l, h);
    AtMostThree(s.ram.mem, r, page, 0);
    MapRunsOutIff(s.ram, l, r, page, e);
    MapRefinesUpdate(s.ram, l, r, page, e);
  }

  lemma {:induction false} AtMostThree(m: Memory, f: PhysAddr, page: Page, d: nat)
    requires d <= 3
    ensures Missing(m, f, page, d) <= 3 - d
    decreases 3 - d
  {
    if d < 3 && Rd(m, f, page[d]).attr.present {
      AtMostThree(m, Rd(m, f, page[d]).target, page, d + 1);
    }
  }

  lemma FirstMapSucceeds(s: State, l: Ledger, h: Handle, v: bv64, p: bv64, flags: MapFlags)
    requires Inv(s, l) && LiveSlot(s.slots, h) && Available(s.ram.supply) >= 3
    requires Aligned4K(v) && Aligned4K(p) && IsCanonical(v) && !Rd(s.ram.mem, RootOf(s, h), PageOf(v)[0]).attr.present
    ensures Allowed(s, Map(h, v, p, flags)) && Map4K(s, h, v, p, flags).1.Ok?
    ensures At(s.ram.mem, RootOf(s, h), PageOf(v), 3).None?
  {
    NothingThere(s.ram.mem, RootOf(s, h), PageOf(v));
    MapSucceeds(s, l, h, v, p, flags);
  }

  lemma NothingThere(m: Memory, r: PhysAddr, page: Page)
    requires !Rd(m, r, page[0]).attr.present
    ensures SmallPath(m, r, page) && At(m, r, page, 3).None?
  {
    assert At(m, r, page, 0) == Some(r);
    assert At(m, r, page, 1) == None;
    assert At(m, r, page, 2) == None;
  }

  // ---- Lost frames ----------------------------------------------------------

  /** Creating a space, mapping one page under an upper-half entry the kernel lacks and destroying the space loses frames. */
  lemma UpperMapLosesFrames(s: State, l: Ledger, v: bv64, p: bv64, flags: MapFlags)
    requires Ready(s, l) && Aligned4K(v) && Aligned4K(p) && IsCanonical(v)
    requires PageOf(v)[0] >= KERNEL_PML4_START && !Rd(s.ram.mem, s.kernel, PageOf(v)[0]).attr.present
    ensures var ops := [New, Map(FIRST, v, p, flags), Destroy(FIRST)];
            AllowedRun(s, ops) && LedgerRun(s, l, ops).dropped != l.dropped
  {
    var op := Map(FIRST, v, p, flags);
    var ops := [New, op, Destroy(FIRST)];
    var n, k := NewSpace(s).0, NewLedger(s, l);
    FirstSpace(s, l, PageOf(v)[0]);
    FirstMapSucceeds(n, k, FIRST, v, p, flags);
    ForkedHalfIsLost(n, k, FIRST, v, p, flags, []);
    EditKeepsSlots(n, op);
    ThreeSteps(s, New, op, Destroy(FIRST));
    assert LosesAt(s, ops, 2);
    RunLosesIff(s, l, ops);
  }

  lemma ThreeSteps(s: State, a: Op, b: Op, c: Op)
    ensures var ops := [a, b, c];
            && Run(s, ops[..0]) == s && Run(s, ops[..1]) == Step(s, a) && Run(s, ops[..2]) == Step(Step(s, a), b)
            && (AllowedRun(s, ops) <==> Allowed(s, a) && Allowed(Step(s, a), b) && Allowed(Step(Step(s, a), b), c))
  {
    var ops := [a, b, c];
    assert ops[..0] == [] && ops[..1] == [a] && ops[..2] == [a, b] && [a, b][..1] == [a] && [a][..0] == [];
    assert Run(s, [a]) == Step(s, a);
    assert Run(s, [a, b]) == Step(Step(s, a), b);
  }

  // ---- Slots run out --------------------------------------------------------

  /** Exactly the first `k` slots are in use. */
  predicate FilledUpTo(slots: seq<Slot>, k: nat) {
    forall i | 0 <= i < |slots| :: slots[i].used <==> i < k
  }

  function News(n: nat): seq<Op> {
    seq(n, _ => New)
  }

  lemma NewFills(s: State, l: Ledger, k: nat)
    requires Inv(s, l) && FilledUpTo(s.slots, k) && k < MAX_ADDRESS_SPACES && Available(s.ram.supply) > 0
    ensures var n := NewSpace(s).0;
            FilledUpTo(n.slots, k + 1) && Available(n.ram.supply) == Available(s.ram.supply) - 1
  {
    var f := FirstUnused(s.slots, 0);
    assert !s.slots[k].used;
    assert f.Some? && f.value == k;
  }

  lemma {:induction false} NewsFill(s: State, l: Ledger, n: nat)
    requires Inv(s, l) && FilledUpTo(s.slots, 0) && n <= MAX_ADDRESS_SPACES && Available(s.ram.supply) >= n
    ensures var e := Run(s, News(n));
            && AllowedRun(s, News(n)) && Inv(e, LedgerRun(s, l, News(n)))
            && FilledUpTo(e.slots, n) && Available(e.ram.supply) == Available(s.ram.supply) - n
  {
    assert AllowedRun(s, News(n));
    RunKeepsInv(s, l, News(n));
    if n > 0 {
      NewsFill(s, l, n - 1);
      assert News(n)[..n - 1] == News(n - 1);
      NewFills(Run(s, News(n - 1)), LedgerRun(s, l, News(n - 1)), n - 1);
    }
  }

  /** The 65th space: its creation fails and loses a frame. */
  lemma SlotsRunOut(s: State, l: Ledger)
    requires Inv(s, l) && FilledUpTo(s.slots, 0) && Available(s.ram.supply) > 64
    ensures var ops := News(65);
            && AllowedRun(s, ops) && LedgerRun(s, l, ops).dropped != l.dropped
            && NewSpace(Run(s, ops[..64])).1 == Err(OutOfMemory)
  {
    var n := 64;
    var ops := News(65);
    NewsFill(s, l, n);
    assert ops[..n] == News(n);
    assert FirstUnused(Run(s, News(n)).slots, 0).None?;
    assert LosesAt(s, ops, n);
    RunLosesIff(s, l, ops);
  }

  // ---- The stack overflows --------------------------------------------------

  /** Lower-half addresses in pairwise different 2 MiB regions. */
  ghost predicate SpreadOut(vs: seq<bv64>) {
    && (forall j | 0 <= j < |vs| :: LowerAddress(vs[j]))
    && (forall i, j | 0 <= i < j < |vs| :: PageOf(vs[i])[..3] != PageOf(vs[j])[..3])
  }

  function MapsOf(h: Handle, vs: seq<bv64>, p: bv64, flags: MapFlags): seq<Op> {
    if vs == [] then [] else MapsOf(h, vs[..|vs| - 1], p, flags) + [Map(h, vs[|vs| - 1], p, flags)]
  }

  /** A map that has three frames at hand leaves the table of its page in place, whether the page was bound or not. */
  lemma TableAfterMap(s: Ram, l: Ledger, r: PhysAddr, page: Page, e: Entry)
    requires Balanced(s, l) && Live(l.own, r) && SmallPath(s.mem, r, page) && e.attr.present && Available(s.supply) >= 3
    ensures var s' := MapPage(s, r, page, e).0;
            At(s'.mem, r, page, 3).Some? && Available(s'.supply) >= Available(s.supply) - 3 && Keeps(s.mem, s'.mem, l.own)
  {
    AtMostThree(s.mem, r, page, 0);
    MapRunsOutIff(s, l, r, page, e);
    MapRefinesUpdate(s, l, r, page, e);
  }

  predicate HasTable(m: Memory, r: PhysAddr, v: bv64) {
    At(m, r, PageOf(v), 3).Some?
  }

  ghost predicate HasTables(m: Memory, r: PhysAddr, vs: seq<bv64>) {
    forall v | v in vs :: HasTable(m, r, v)
  }

  lemma OneMoreRegion(s: State, l: Ledger, h: Handle, v: bv64, p: bv64, flags: MapFlags)
    requires Inv(s, l) && LiveSlot(s.slots, h) && Available(s.ram.supply) >= 3
    requires LowerAddress(v) && Aligned4K(p)
    ensures var s' := Map4K(s, h, v, p, flags).0;
            && Allowed(s, Map(h, v, p, flags)) && s'.slots == s.slots && HasTable(s'.ram.mem, RootOf(s, h), v)
            && Available(s'.ram.supply) >= Available(s.ram.supply) - 3 && Keeps(s.ram.mem, s'.ram.mem, l.own)
  {
    LiveHandleRoot(s, l, h);
    LowerHalfSmall(s.ram.mem, l.own, RootOf(s, h), PageOf(v));
    TableAfterMap(s.ram, l, RootOf(s, h), PageOf(v), LeafEntry(p, flags, s.nxe));
  }

  lemma TablesStay(m: Memory, m': Memory, g: Ownership, r: PhysAddr, vs: seq<bv64>)
    requires HasTables(m, r, vs) && Keeps(m, m', g) && Live(g, r)
    ensures HasTables(m', r, vs)
  {
    forall v | v in vs ensures HasTable(m', r, v) {
      assert HasTable(m, r, v) && SameTable(m, m', g, r, PageOf(v), 3);
    }
  }

  /** A lower-half address that a map accepts. */
  predicate LowerAddress(v: bv64) {
    Aligned4K(v) && IsCanonical(v) && PageOf(v)[0] < KERNEL_PML4_START
  }

  lemma SpreadInit(vs: seq<bv64>)
    requires SpreadOut(vs) && vs != []
    ensures SpreadOut(vs[..|vs| - 1]) && LowerAddress(vs[|vs| - 1]) && vs == vs[..|vs| - 1] + [vs[|vs| - 1]]
  {
  }

  lemma NextRegion(s: State, l: Ledger, h: Handle, vs: seq<bv64>, v: bv64, p: bv64, flags: MapFlags)
    requires Inv(s, l) && LiveSlot(s.slots, h) && Available(s.ram.supply) >= 3 && HasTables(s.ram.mem, RootOf(s, h), vs)
    requires LowerAddress(v) && Aligned4K(p)
    ensures var s' := Step(s, Map(h, v, p, flags));
            && Allowed(s, Map(h, v, p, flags)) && s'.slots == s.slots && HasTables(s'.ram.mem, RootOf(s, h), vs + [v])
            && Available(s'.ram.supply) >= Available(s.ram.supply) - 3
  {
    OneMoreRegion(s, l, h, v, p, flags);
    LiveHandleRoot(s, l, h);
    TablesStay(s.ram.mem, Map4K(s, h, v, p, flags).0.ram.mem, l.own, RootOf(s, h), vs);
  }

  lemma OneMoreOp(s: State, ops: seq<Op>, op: Op)
    requires AllowedRun(s, ops) && Allowed(Run(s, ops), op)
    ensures AllowedRun(s, ops + [op]) && Run(s, ops + [op]) == Step(Run(s, ops), op)
  {
    AllowedOneMore(s, ops, op);
    assert (ops + [op])[..|ops|] == ops;
  }

  lemma {:induction false} MapRegions(s: State, l: Ledger, h: Handle, vs: seq<bv64>, p: bv64, flags: MapFlags)
    requires Inv(s, l) && LiveSlot(s.slots, h) && SpreadOut(vs) && Available(s.ram.supply) >= 3 * |vs| && Aligned4K(p)
    ensures var ops := MapsOf(h, vs, p, flags);
            var e := Run(s, ops);
            && AllowedRun(s, ops) && Inv(e, LedgerRun(s, l, ops)) && e.slots == s.slots
            && HasTables(e.ram.mem, RootOf(s, h), vs) && Available(e.ram.supply) >= Available(s.ram.supply) - 3 * |vs|
    decreases |vs|
  {
    if vs != [] {
      var init, v := vs[..|vs| - 1], vs[|vs| - 1];
      var ops, op := MapsOf(h, init, p, flags), Map(h, v, p, flags);
      MapRegions(s, l, h, init, p, flags);
      var e, k := Run(s, ops), LedgerRun(s, l, ops);
      SpreadInit(vs);
      NextRegion(e, k, h, init, v, p, flags);
      OneMoreOp(s, ops, op);
      RunKeepsInv(s, l, ops + [op]);
    }
  }

  ghost function RegionsOf(vs: seq<bv64>): set<Path> {
    set v | v in vs :: PageOf(v)[..3]
  }

  lemma {:induction false} CountRegions(vs: seq<bv64>)
    requires SpreadOut(vs)
    ensures |RegionsOf(vs)| == |vs|
    decreases |vs|
  {
    if vs == [] {
      assert RegionsOf(vs) == {};
    } else {
      var init, v := vs[..|vs| - 1], vs[|vs| - 1];
      SpreadInit(vs);
      CountRegions(init);
      LastRegion(vs, init, v);
    }
  }

  lemma LastRegion(vs: seq<bv64>, init: seq<bv64>, v: bv64)
    requires SpreadOut(vs) && vs == init + [v]
    ensures RegionsOf(vs) == RegionsOf(init) + {PageOf(v)[..3]} && PageOf(v)[..3] !in RegionsOf(init)
  {
    forall u | u in init ensures PageOf(u)[..3] != PageOf(v)[..3] {
      var i :| 0 <= i < |init| && init[i] == u;
      assert vs[i] == u && vs[|init|] == v;
    }
  }

  /** A space with tables for many regions has at least as many tables to return. */
  lemma ManyTables(m: Memory, g: Ownership, r: PhysAddr, vs: seq<bv64>)
    requires Tree(m, g) && r in g.spaces && SpreadOut(vs) && HasTables(m, r, vs)
    ensures |DestroyOrder(m, r)| >= |vs|
  {
    assert Live(g, r);
    forall v | v in vs ensures PageOf(v)[..3] in LowerPaths(g, r) {
      assert HasTable(m, r, v);
      PathNode(m, g, r, PageOf(v), 3);
    }
    CountRegions(vs);
    Smaller(RegionsOf(vs), LowerPaths(g, r));
    CountTables(m, g, r, LowerTables(g, r));
    OrderLength(m, g, r);
  }

  lemma Smaller(a: set<Path>, b: set<Path>)
    requires a <= b
    ensures |a| <= |b|
  {
    assert b == a + (b - a);
  }

  /** Mapping a page in more regions than the stack holds frames, then destroying the space, loses frames. */
  lemma StackOverflows(s: State, l: Ledger, h: Handle, vs: seq<bv64>, p: bv64, flags: MapFlags)
    requires Inv(s, l) && LiveSlot(s.slots, h) && SpreadOut(vs) && |vs| > 128 && Aligned4K(p)
    requires Available(s.ram.supply) >= 3 * |vs|
    ensures var ops := MapsOf(h, vs, p, flags) + [Destroy(h)];
            AllowedRun(s, ops) && LedgerRun(s, l, ops).dropped != l.dropped
  {
    var maps := MapsOf(h, vs, p, flags);
    var ops := maps + [Destroy(h)];
    var e, k := Run(s, maps), LedgerRun(s, l, maps);
    MapRegions(s, l, h, vs, p, flags);
    LiveHandleRoot(e, k, h);
    ManyTables(e.ram.mem, k.own, RootOf(e, h), vs);
    OneMoreOp(s, maps, Destroy(h));
    assert ops[..|maps|] == maps;
    assert LosesAt(s, ops, |maps|);
    RunLosesIff(s, l, ops);
  }

  // ---- User access ----------------------------------------------------------

  /** Two pages of a region, the first mapped without USER and the second with: the second is closed to user mode. */
  lemma UserMapHidden(s: State, l: Ledger, h: Handle, v: bv64, p: bv64, flags: MapFlags, v': bv64, p': bv64, flags': MapFlags)
    requires Inv(s, l) && Allowed(s, Map(h, v, p, flags)) && Map4K(s, h, v, p, flags).1.Ok?
    requires At(s.ram.mem, RootOf(s, h), PageOf(v), 3).None? && !Contains(flags, USER) && Contains(flags', USER)
    requires Aligned4K(v') && Aligned4K(p') && IsCanonical(v') && PageOf(v')[..3] == PageOf(v)[..3] && PageOf(v') != PageOf(v)
    ensures var (s2, res) := Map4K(Map4K(s, h, v, p, flags).0, h, v', p', flags');
            res.Ok? && !Permits(s2.ram.mem, RootOf(s2, h), PageOf(v'), User)
  {
    LiveHandleRoot(s, l, h);
    EditKeepsSlots(s, Map(h, v, p, flags));
    EditKeepsSlots(Map4K(s, h, v, p, flags).0, Map(h, v', p', flags'));
    KernelFirstHidesUser(s.ram, l, RootOf(s, h), PageOf(v), LeafEntry(p, flags, s.nxe), PageOf(v'), LeafEntry(p', flags', s.nxe));
  }

  lemma UserMapHiddenFirst(s: State, l: Ledger, h: Handle, v: bv64, p: bv64, flags: MapFlags, v': bv64, p': bv64, flags': MapFlags)
    requires Inv(s, l) && LiveSlot(s.slots, h) && Available(s.ram.supply) >= 3
    requires Aligned4K(v) && Aligned4K(p) && IsCanonical(v) && !Rd(s.ram.mem, RootOf(s, h), PageOf(v)[0]).attr.present
    requires !Contains(flags, USER) && Contains(flags', USER)
    requires Aligned4K(v') && Aligned4K(p') && IsCanonical(v') && PageOf(v')[..3] == PageOf(v)[..3] && PageOf(v') != PageOf(v)
    ensures var (s1, res1) := Map4K(s, h, v, p, flags);
            var (s2, res2) := Map4K(s1, h, v', p', flags');
            res1.Ok? && res2.Ok? && !Permits(s2.ram.mem, RootOf(s2, h), PageOf(v'), User)
  {
    FirstMapSucceeds(s, l, h, v, p, flags);
    UserMapHidden(s, l, h, v, p, flags, v', p', flags');
  }

  // ---- Stale bindings -------------------------------------------------------

  /** Spaces whose roots link the same table at the index of a page share its last-level table. */
  lemma SameLinkShares(m: Memory, r: PhysAddr, r': PhysAddr, page: Page)
    requires SameLink(Rd(m, r, page[0]), Rd(m, r', page[0])) && At(m, r, page, 3).Some?
    ensures SharesTable(m, r, r', page)
  {
    SameEntrySameWalk(m, r, r', page, 3);
  }

  /** A page of the kernel space bound without GLOBAL, a processor that runs another space with the same root link and caches nothing. */
  ghost predicate Exposed(t: Smp, l: Ledger, c: nat, v: bv64) {
    && Coherent(t, l) && c in t.cpus && t.cpus[c].tlb == map[] && Bound(t.s, KernelHandle, v)
    && SmallPath(t.s.ram.mem, t.s.kernel, PageOf(v)) && !Leaf(t.s.ram.mem, t.s.kernel, PageOf(v)).value.attr.global
    && SameLink(Rd(t.s.ram.mem, t.s.kernel, PageOf(v)[0]), Rd(t.s.ram.mem, t.cpus[c].cr3, PageOf(v)[0]))
  }

  /** Walk there and unmap here: the other space's processor is stale, with nothing on the way. */
  lemma KernelUnmapExposes(t: Smp, l: Ledger, me: nat, c: nat, v: bv64)
    requires Exposed(t, l, c, v) && me in t.cpus && c != me
    ensures var evs := [Fill(c, PageOf(v)), Edit(me, Unmap(KernelHandle, v))];
            && EnabledRun(t, evs)
            && var e := RunEvents(t, evs);
            c in e.cpus && e.cpus[c].pending == t.cpus[c].pending && Stale(e.s.ram.mem, e.cpus[c], PageOf(v))
  {
    SameLinkShares(t.s.ram.mem, t.s.kernel, t.cpus[c].cr3, PageOf(v));
    StaleWithoutShootdown(t, l, me, c, KernelHandle, v);
  }

  /** The same with a protect that changes something. */
  lemma KernelProtectExposes(t: Smp, l: Ledger, me: nat, c: nat, v: bv64, flags: MapFlags)
    requires Exposed(t, l, c, v) && me in t.cpus && c != me
    requires Leaf(t.s.ram.mem, t.s.kernel, PageOf(v)).value.attr.(rest := 0) != FlagsToAttr(flags, t.s.nxe)
    ensures var evs := [Fill(c, PageOf(v)), Edit(me, Protect(KernelHandle, v, flags))];
            && EnabledRun(t, evs)
            && var e := RunEvents(t, evs);
            c in e.cpus && e.cpus[c].pending == t.cpus[c].pending && Stale(e.s.ram.mem, e.cpus[c], PageOf(v))
  {
    SameLinkShares(t.s.ram.mem, t.s.kernel, t.cpus[c].cr3, PageOf(v));
    StaleAfterProtect(t, l, me, c, KernelHandle, v, flags);
  }

  /** What a map that succeeds comes to on the multiprocessor. */
  lemma MapEvent(t: Smp, me: nat, c: nat, v: bv64, p: bv64, flags: MapFlags)
    requires Enabled(t, Edit(me, Map(KernelHandle, v, p, flags))) && Map4K(t.s, KernelHandle, v, p, flags).1.Ok?
    requires c in t.cpus && c != me
    ensures var t' := Next(t, Edit(me, Map(KernelHandle, v, p, flags)));
            && t'.s.ram == MapPage(t.s.ram, t.s.kernel, PageOf(v), LeafEntry(p, flags, t.s.nxe)).0
            && t'.s.kernel == t.s.kernel && t'.s.nxe == t.s.nxe && t'.cpus.Keys == t.cpus.Keys && t'.cpus[c] == t.cpus[c]
  {
  }

  /** A page the kernel maps under a link it shares with the space of another processor is exposed. */
  lemma MapExposes(t: Smp, l: Ledger, me: nat, c: nat, v: bv64, p: bv64, flags: MapFlags)
    requires Coherent(t, l) && me in t.cpus && c in t.cpus && c != me && t.cpus[c].tlb == map[]
    requires Aligned4K(v) && Aligned4K(p) && IsCanonical(v) && !Contains(flags, GLOBAL) && Available(t.s.ram.supply) >= 3
    requires SmallPath(t.s.ram.mem, t.s.kernel, PageOf(v)) && At(t.s.ram.mem, t.s.kernel, PageOf(v), 3).None?
    requires SameLink(Rd(t.s.ram.mem, t.s.kernel, PageOf(v)[0]), Rd(t.s.ram.mem, t.cpus[c].cr3, PageOf(v)[0]))
    ensures var ev := Edit(me, Map(KernelHandle, v, p, flags));
            && Enabled(t, ev) && Exposed(Next(t, ev), LedgerNext(t, l, ev), c, v)
            && Leaf(Next(t, ev).s.ram.mem, Next(t, ev).s.kernel, PageOf(v)) == Some(LeafEntry(p, flags, t.s.nxe))
            && Next(t, ev).cpus.Keys == t.cpus.Keys && Next(t, ev).cpus[c] == t.cpus[c] && Next(t, ev).s.nxe == t.s.nxe
  {
    var ev := Edit(me, Map(KernelHandle, v, p, flags));
    MapSucceeds(t.s, l, KernelHandle, v, p, flags);
    NextKeepsCoherent(t, l, ev);
    assert Live(l.own, t.s.kernel) && Live(l.own, t.cpus[c].cr3);
    MapEvent(t, me, c, v, p, flags);
    MappedAndShared(t.s.ram, l, t.s.kernel, PageOf(v), LeafEntry(p, flags, t.s.nxe), t.cpus[c].cr3);
  }

  lemma MappedAndShared(s: Ram, l: Ledger, r: PhysAddr, page: Page, e: Entry, r': PhysAddr)
    requires Balanced(s, l) && Live(l.own, r) && Live(l.own, r') && SmallPath(s.mem, r, page) && e.attr.present
    requires SameLink(Rd(s.mem, r, page[0]), Rd(s.mem, r', page[0])) && MapPage(s, r, page, e).1.Ok?
    ensures var m' := MapPage(s, r, page, e).0.mem;
            && SmallPath(m', r, page) && Leaf(m', r, page) == Some(e) && SameLink(Rd(m', r, page[0]), Rd(m', r', page[0]))
  {
    MapBinds(s, l, r, page, e);
    LinkStays(s, l, r, page, e, r');
  }

  lemma LinkStays(s: Ram, l: Ledger, r: PhysAddr, page: Page, e: Entry, r': PhysAddr)
    requires Balanced(s, l) && Live(l.own, r) && Live(l.own, r') && SmallPath(s.mem, r, page) && e.attr.present
    requires SameLink(Rd(s.mem, r, page[0]), Rd(s.mem, r', page[0]))
    ensures var m' := MapPage(s, r, page, e).0.mem; SameLink(Rd(m', r, page[0]), Rd(m', r', page[0]))
  {
    MapRefinesUpdate(s, l, r, page, e);
    var m' := MapPage(s, r, page, e).0.mem;
    assert SameEntry(s.mem, m', l.own, r, page[0]) && SameEntry(s.mem, m', l.own, r', page[0]);
  }

  /** Two processors on the kernel space, caches empty, APIC up. */
  function TwoCpus(s: State): Smp {
    var c := Cpu(s.kernel, map[], {});
    Smp(s, map[0 := c, 1 := c], 1, {})
  }

  /** Processor 1 switches to `h`, processor 0 maps a kernel page, processor 1 walks to it, processor 0 does `last`. */
  function SharedRun(h: Handle, v: bv64, p: bv64, flags: MapFlags, last: Op): seq<Event> {
    [Activate(1, h)] + ([Edit(0, Map(KernelHandle, v, p, flags))] + [Fill(1, PageOf(v)), Edit(0, last)])
  }

  /** The kernel has no table for the page yet but shares the link above it with `h`. */
  ghost predicate Shareable(s: State, l: Ledger, h: Handle, v: bv64, p: bv64, flags: MapFlags) {
    && Inv(s, l) && LiveHandle(s, h) && Available(s.ram.supply) >= 3
    && Aligned4K(v) && Aligned4K(p) && IsCanonical(v) && !Contains(flags, GLOBAL)
    && SmallPath(s.ram.mem, s.kernel, PageOf(v)) && At(s.ram.mem, s.kernel, PageOf(v), 3).None?
    && SameLink(Rd(s.ram.mem, s.kernel, PageOf(v)[0]), Rd(s.ram.mem, RootOf(s, h), PageOf(v)[0]))
  }

  /** A walk that finds nothing behind its first link. */
  lemma EndsAtSecond(m: Memory, r: PhysAddr, page: Page)
    requires Link(Rd(m, r, page[0])) && !Rd(m, Rd(m, r, page[0]).target, page[1]).attr.present
    ensures SmallPath(m, r, page) && At(m, r, page, 3).None?
  {
    assert At(m, r, page, 0) == Some(r);
    assert At(m, r, page, 1) == Some(Rd(m, r, page[0]).target);
    assert At(m, r, page, 2) == None;
  }

  lemma SwitchIsCoherent(s: State, l: Ledger, h: Handle)
    requires Inv(s, l) && LiveHandle(s, h)
    ensures var t := TwoCpus(s);
            && Enabled(t, Activate(1, h)) && Coherent(Next(t, Activate(1, h)), l)
            && Next(t, Activate(1, h)).s == s && Next(t, Activate(1, h)).cpus.Keys == {0, 1}
            && Next(t, Activate(1, h)).cpus[1] == Cpu(RootOf(s, h), map[], {})
  {
    var t := TwoCpus(s);
    StartIsCoherent(t, l);
    NextKeepsCoherent(t, l, Activate(1, h));
    assert FlushAll(t.cpus[1]).tlb == map[];
  }

  /** After the map the page is exposed. */
  lemma SharedPageExposed(s: State, l: Ledger, h: Handle, v: bv64, p: bv64, flags: MapFlags) returns (t1: Smp, t2: Smp, l2: Ledger)
    requires Shareable(s, l, h, v, p, flags)
    ensures Enabled(TwoCpus(s), Activate(1, h)) && t1 == Next(TwoCpus(s), Activate(1, h))
    ensures Enabled(t1, Edit(0, Map(KernelHandle, v, p, flags))) && t2 == Next(t1, Edit(0, Map(KernelHandle, v, p, flags)))
    ensures Exposed(t2, l2, 1, v) && 0 in t2.cpus && t2.cpus[1].pending == {} && t2.s.nxe == s.nxe
    ensures Leaf(t2.s.ram.mem, t2.s.kernel, PageOf(v)) == Some(LeafEntry(p, flags, s.nxe))
  {
    var ev := Edit(0, Map(KernelHandle, v, p, flags));
    SwitchIsCoherent(s, l, h);
    t1 := Next(TwoCpus(s), Activate(1, h));
    MapExposes(t1, l, 0, 1, v, p, flags);
    t2, l2 := Next(t1, ev), LedgerNext(t1, l, ev);
  }

  /** Mapped, walked to from another space, unmapped: stale there, with nothing pending. */
  lemma SharedUnmapStale(s: State, l: Ledger, h: Handle, v: bv64, p: bv64, flags: MapFlags)
    requires Shareable(s, l, h, v, p, flags)
    ensures var evs := SharedRun(h, v, p, flags, Unmap(KernelHandle, v));
            && EnabledRun(TwoCpus(s), evs)
            && var e := RunEvents(TwoCpus(s), evs);
            1 in e.cpus && e.cpus[1].pending == {} && Stale(e.s.ram.mem, e.cpus[1], PageOf(v))
  {
    var t1, t2, l2 := SharedPageExposed(s, l, h, v, p, flags);
    KernelUnmapExposes(t2, l2, 0, 1, v);
    AfterSharing(s, h, v, p, flags, t1, t2, Unmap(KernelHandle, v));
  }

  /** The same with a protect to flags that differ in a bit of the entry. */
  lemma SharedProtectStale(s: State, l: Ledger, h: Handle, v: bv64, p: bv64, flags: MapFlags, flags': MapFlags)
    requires Shareable(s, l, h, v, p, flags) && FlagsToAttr(flags, s.nxe) != FlagsToAttr(flags', s.nxe)
    ensures var evs := SharedRun(h, v, p, flags, Protect(KernelHandle, v, flags'));
            && EnabledRun(TwoCpus(s), evs)
            && var e := RunEvents(TwoCpus(s), evs);
            1 in e.cpus && e.cpus[1].pending == {} && Stale(e.s.ram.mem, e.cpus[1], PageOf(v))
  {
    var t1, t2, l2 := SharedPageExposed(s, l, h, v, p, flags);
    KernelProtectExposes(t2, l2, 0, 1, v, flags');
    AfterSharing(s, h, v, p, flags, t1, t2, Protect(KernelHandle, v, flags'));
  }

  lemma AfterSharing(s: State, h: Handle, v: bv64, p: bv64, flags: MapFlags, t1: Smp, t2: Smp, last: Op)
    requires Enabled(TwoCpus(s), Activate(1, h)) && t1 == Next(TwoCpus(s), Activate(1, h))
    requires Enabled(t1, Edit(0, Map(KernelHandle, v, p, flags))) && t2 == Next(t1, Edit(0, Map(KernelHandle, v, p, flags)))
    requires EnabledRun(t2, [Fill(1, PageOf(v)), Edit(0, last)])
    ensures EnabledRun(TwoCpus(s), SharedRun(h, v, p, flags, last))
    ensures RunEvents(TwoCpus(s), SharedRun(h, v, p, flags, last)) == RunEvents(t2, [Fill(1, PageOf(v)), Edit(0, last)])
  {
    var edit, tail := Edit(0, Map(KernelHandle, v, p, flags)), [Fill(1, PageOf(v)), Edit(0, last)];
    FirstEvent(t1, edit, tail);
    FirstEvent(TwoCpus(s), Activate(1, h), [edit] + tail);
  }
}
