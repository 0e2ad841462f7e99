/**
 The accessed and dirty bits, which the processor sets in page-table words on its own.

 No code of the memory manager looks at them.  A run in which the processor sets them
 between any two operations therefore ends in the state that the operations alone lead
 to, these bits excepted, and what is proved about runs carries over.
 */
module HardwareBits {
  import opened Pte
  import opened FrameSupply
  import opened PageTree
  import opened TableEdits
  import opened PageMapper
  import opened Teardown
  import opened Creation
  import opened Slots
  import opened Machine
  import opened Runs

  const PTE_ACCESSED: bv64 := 0x20
  const PTE_DIRTY: bv64 := 0x40

  predicate HardwareBit(bits: bv64) {
    bits == PTE_ACCESSED || bits == PTE_DIRTY || bits == PTE_ACCESSED | PTE_DIRTY
  }

  function Touched(e: Entry, bits: bv64): Entry {
    e.(attr := e.attr.(rest := e.attr.rest | bits))
  }

  /** Setting the bits in a word changes its decoding in the bits the code does not look at. */
  lemma TouchedDecodes(w: bv64, bits: bv64)
    requires HardwareBit(bits)
    ensures Decode(w | bits) == Touched(Decode(w), bits) && SameButRest(Decode(w), Decode(w | bits))
  {
  }

  /** The processor walks to a page from `r` and marks the entry it uses at depth `d`. */
  function Touch(m: Memory, r: PhysAddr, page: Page, d: nat, bits: bv64): Memory
    requires d < 4
  {
    match At(m, r, page, d)
    case None => m
    case Some(f) =>
      if Rd(m, f, page[d]).attr.present then Wr(m, f, page[d], Touched(Rd(m, f, page[d]), bits)) else m
  }

  // ---- Memories that differ in these bits only ------------------------------

  predicate SimilarAt(m: Memory, m': Memory, f: PhysAddr, i: Index) {
    SameButRest(Rd(m, f, i), Rd(m', f, i))
  }

  ghost predicate Similar(m: Memory, m': Memory) {
    forall f, i :: SimilarAt(m, m', f, i)
  }

  lemma TouchSimilar(m: Memory, r: PhysAddr, page: Page, d: nat, bits: bv64)
    requires d < 4
    ensures Similar(m, Touch(m, r, page, d, bits))
  {
    SimilarToItself(m);
    var t := At(m, r, page, d);
    if t.Some? {
      TouchedSame(Rd(m, t.value, page[d]), bits);
      WordSimilar(m, t.value, page[d], Touched(Rd(m, t.value, page[d]), bits));
    }
  }

  lemma SimilarToItself(m: Memory)
    ensures Similar(m, m)
  {
    forall f, i ensures SimilarAt(m, m, f, i) { }
  }

  lemma TouchedSame(e: Entry, bits: bv64)
    ensures SameButRest(e, Touched(e, bits))
  {
  }

  lemma WordSimilar(m: Memory, f: PhysAddr, i: Index, e: Entry)
    requires SameButRest(Rd(m, f, i), e)
    ensures Similar(m, Wr(m, f, i, e))
  {
    forall g, j ensures SimilarAt(m, Wr(m, f, i, e), g, j) { }
  }

  lemma SimilarTransitive(m: Memory, m1: Memory, m2: Memory)
    requires Similar(m, m1) && Similar(m1, m2)
    ensures Similar(m, m2)
  {
    forall f, i ensures SimilarAt(m, m2, f, i) {
      assert SimilarAt(m, m1, f, i) && SimilarAt(m1, m2, f, i);
    }
  }

  lemma {:induction false} SimilarWalks(m: Memory, m': Memory, r: PhysAddr, p: Path, d: nat)
    requires Similar(m, m') && d <= |p|
    ensures At(m', r, p, d) == At(m, r, p, d)
  {
    if d > 0 {
      SimilarWalks(m, m', r, p, d - 1);
      if At(m, r, p, d - 1).Some? {
        assert SimilarAt(m, m', At(m, r, p, d - 1).value, p[d - 1]);
      }
    }
  }

  /** The binding of a page is the same but for these bits. */
  lemma SimilarLeaf(m: Memory, m': Memory, r: PhysAddr, page: Page)
    requires Similar(m, m')
    ensures Leaf(m', r, page).Some? == Leaf(m, r, page).Some?
    ensures Leaf(m, r, page).Some? ==> SameButRest(Leaf(m, r, page).value, Leaf(m', r, page).value)
  {
    SimilarWalks(m, m', r, page, 3);
    if At(m, r, page, 3).Some? {
      assert SimilarAt(m, m', At(m, r, page, 3).value, page[3]);
    }
  }

  lemma SimilarSmallPath(m: Memory, m': Memory, r: PhysAddr, page: Page)
    requires Similar(m, m')
    ensures SmallPath(m', r, page) == SmallPath(m, r, page)
  {
    forall d | 0 <= d < 3
      ensures At(m', r, page, d) == At(m, r, page, d)
      ensures At(m, r, page, d).Some? ==> SimilarAt(m, m', At(m, r, page, d).value, page[d])
    {
      SimilarWalks(m, m', r, page, d);
    }
  }

  lemma SimilarPlaced(m: Memory, m': Memory, g: Ownership, f: PhysAddr)
    requires Similar(m, m') && f in g.nodes && Placed(m, g, f)
    ensures Placed(m', g, f)
  {
    var n := g.nodes[f];
    if n.path != [] {
      assert SimilarAt(m, m', n.parent, n.path[|n.path| - 1]);
    }
  }

  lemma SimilarLinks(m: Memory, m': Memory, g: Ownership, f: PhysAddr, i: Index)
    requires Similar(m, m') && f in g.nodes && LinkOwned(m, g, f, i) && PlainEntry(m, g, f, i)
    ensures LinkOwned(m', g, f, i) && PlainEntry(m', g, f, i)
  {
    assert SimilarAt(m, m', f, i) && SimilarAt(m, m', g.kernel, i);
  }

  lemma SimilarTree(m: Memory, m': Memory, g: Ownership)
    requires Similar(m, m') && Tree(m, g)
    ensures Tree(m', g)
  {
    forall f | f in g.nodes ensures Placed(m', g, f) {
      assert Placed(m, g, f);
      SimilarPlaced(m, m', g, f);
    }
    forall f, i | f in g.nodes ensures LinkOwned(m', g, f, i) && PlainEntry(m', g, f, i) {
      assert LinkOwned(m, g, f, i) && PlainEntry(m, g, f, i);
      SimilarLinks(m, m', g, f, i);
    }
  }

  // ---- States ---------------------------------------------------------------

  /** The states differ in these bits of page-table words only. */
  ghost predicate SimilarStates(s: State, s': State) {
    s'.(ram := s'.ram.(mem := s.ram.mem)) == s && Similar(s.ram.mem, s'.ram.mem)
  }

  lemma SimilarInv(s: State, s': State, l: Ledger)
    requires SimilarStates(s, s') && Inv(s, l)
    ensures Inv(s', l)
  {
    SimilarTree(s.ram.mem, s'.ram.mem, l.own);
  }

  lemma SimilarAllowed(s: State, s': State, op: Op)
    requires SimilarStates(s, s')
    ensures Allowed(s', op) == Allowed(s, op)
  {
    if op.Map? || op.Unmap? || op.Protect? {
      SimilarSmallPath(s.ram.mem, s'.ram.mem, RootOf(s, op.h), PageOf(op.v));
    }
  }

  lemma SimilarWalk(m: Memory, m': Memory, r: PhysAddr, page: Page)
    requires Similar(m, m')
    ensures Walk(m', r, page) == Walk(m, r, page)
    ensures Walk(m, r, page).Some? ==> SameButRest(Rd(m, Walk(m, r, page).value, page[3]), Rd(m', Walk(m, r, page).value, page[3]))
  {
    assert SimilarAt(m, m', r, page[0]);
    var t1 := Rd(m, r, page[0]).target;
    assert SimilarAt(m, m', t1, page[1]);
    var t2 := Rd(m, t1, page[1]).target;
    assert SimilarAt(m, m', t2, page[2]);
    assert SimilarAt(m, m', Rd(m, t2, page[2]).target, page[3]);
  }

  /** `translate` does not see the bits. */
  lemma SimilarTranslate(s: State, s': State, h: Handle, v: bv64)
    requires SimilarStates(s, s')
    ensures Translate(s', h, v) == Translate(s, h, v)
  {
    SimilarWalk(s.ram.mem, s'.ram.mem, RootOf(s, h), PageOf(v));
  }

  // ---- Every operation treats similar states alike --------------------------

  lemma WriteSimilar(m: Memory, m': Memory, f: PhysAddr, i: Index, e: Entry, e': Entry)
    requires Similar(m, m') && SameButRest(e, e')
    ensures Similar(Wr(m, f, i, e), Wr(m', f, i, e'))
  {
    forall g, j ensures SimilarAt(Wr(m, f, i, e), Wr(m', f, i, e'), g, j) {
      assert SimilarAt(m, m', g, j);
    }
  }

  lemma ZeroSimilar(m: Memory, m': Memory, f: PhysAddr)
    requires Similar(m, m')
    ensures Similar(Zero(m, f), Zero(m', f))
  {
    forall g, j ensures SimilarAt(Zero(m, f), Zero(m', f), g, j) {
      assert SimilarAt(m, m', g, j);
    }
  }

  ghost predicate SimilarRam(s: Ram, s': Ram) {
    s'.supply == s.supply && Similar(s.mem, s'.mem)
  }

  lemma EnsureSimilar(s: Ram, s': Ram, parent: PhysAddr, i: Index, user: bool)
    requires SimilarRam(s, s')
    ensures SimilarRam(EnsureTable(s, parent, i, user).0, EnsureTable(s', parent, i, user).0)
    ensures EnsureTable(s', parent, i, user).1 == EnsureTable(s, parent, i, user).1
  {
    assert SimilarAt(s.mem, s'.mem, parent, i);
    var f := Alloc(s.supply).1;
    if !Rd(s.mem, parent, i).attr.present && f.Some? {
      ZeroSimilar(s.mem, s'.mem, f.value);
      WriteSimilar(Zero(s.mem, f.value), Zero(s'.mem, f.value), parent, i, TableEntry(f.value, user), TableEntry(f.value, user));
    }
  }

  lemma EnsurePdSimilar(s: Ram, s': Ram, r: PhysAddr, page: Page, user: bool)
    requires SimilarRam(s, s')
    ensures SimilarRam(EnsurePd(s, r, page, user).0, EnsurePd(s', r, page, user).0)
    ensures EnsurePd(s', r, page, user).1 == EnsurePd(s, r, page, user).1
  {
    EnsureSimilar(s, s', r, page[0], user);
    var (s1, pdpt) := EnsureTable(s, r, page[0], user);
    if pdpt.Ok? {
      EnsureSimilar(s1, EnsureTable(s', r, page[0], user).0, pdpt.value, page[1], user);
    }
  }

  lemma EnsurePathSimilar(s: Ram, s': Ram, r: PhysAddr, page: Page, user: bool)
    requires SimilarRam(s, s')
    ensures SimilarRam(EnsurePath(s, r, page, user).0, EnsurePath(s', r, page, user).0)
    ensures EnsurePath(s', r, page, user).1 == EnsurePath(s, r, page, user).1
  {
    EnsurePdSimilar(s, s', r, page, user);
    var (s2, pd) := EnsurePd(s, r, page, user);
    if pd.Ok? {
      EnsureSimilar(s2, EnsurePd(s', r, page, user).0, pd.value, page[2], user);
    }
  }

  lemma MapSimilar(s: Ram, s': Ram, r: PhysAddr, page: Page, e: Entry)
    requires SimilarRam(s, s')
    ensures SimilarRam(MapPage(s, r, page, e).0, MapPage(s', r, page, e).0)
    ensures MapPage(s', r, page, e).1 == MapPage(s, r, page, e).1
  {
    EnsurePathSimilar(s, s', r, page, e.attr.user);
    var (s1, pt) := EnsurePath(s, r, page, e.attr.user);
    var s1' := EnsurePath(s', r, page, e.attr.user).0;
    if pt.Ok? {
      assert SimilarAt(s1.mem, s1'.mem, pt.value, page[3]);
      WriteSimilar(s1.mem, s1'.mem, pt.value, page[3], e, e);
    }
  }

  lemma UnmapSimilar(m: Memory, m': Memory, r: PhysAddr, page: Page, attr: Attr)
    requires Similar(m, m')
    ensures Similar(UnmapPage(m, r, page).0, UnmapPage(m', r, page).0) && UnmapPage(m', r, page).1 == UnmapPage(m, r, page).1
    ensures Similar(ProtectPage(m, r, page, attr).0, ProtectPage(m', r, page, attr).0)
    ensures ProtectPage(m', r, page, attr).1 == ProtectPage(m, r, page, attr).1
  {
    SimilarWalk(m, m', r, page);
    if Walk(m, r, page).Some? {
      var pt := Walk(m, r, page).value;
      var e := Entry(Rd(m, pt, page[3]).target, attr);
      WriteSimilar(m, m', pt, page[3], ZERO_ENTRY, ZERO_ENTRY);
      WriteSimilar(m, m', pt, page[3], e, e);
    }
  }

  lemma CopySimilar(m: Memory, m': Memory, src: PhysAddr, dst: PhysAddr)
    requires Similar(m, m')
    ensures Similar(CopyUpper(m, src, dst), CopyUpper(m', src, dst))
  {
    UpperHalfReads(m, src, dst);
    UpperHalfReads(m', src, dst);
    forall f, i ensures SimilarAt(CopyUpper(m, src, dst), CopyUpper(m', src, dst), f, i) {
      assert SimilarAt(m, m', f, i) && SimilarAt(m, m', src, i);
    }
  }

  lemma NewSimilar(s: State, s': State)
    requires SimilarStates(s, s')
    ensures SimilarStates(NewSpace(s).0, NewSpace(s').0) && NewSpace(s').1 == NewSpace(s).1
  {
    var f := Alloc(s.ram.supply).1;
    if f.Some? {
      ZeroSimilar(s.ram.mem, s'.ram.mem, f.value);
      CopySimilar(Zero(s.ram.mem, f.value), Zero(s'.ram.mem, f.value), s.kernel, f.value);
    }
  }

  lemma {:induction false} SweepSimilar(m: Memory, m': Memory, f: PhysAddr, d: nat, i: bv16)
    requires Similar(m, m') && d <= 2
    ensures Sweep(m', f, d, i) == Sweep(m, f, d, i)
    decreases 2 - d, 512 - i
  {
    if i < Width(d) {
      assert SimilarAt(m, m', f, i as bv9);
      SweepSimilar(m, m', f, d, i + 1);
      if d < 2 {
        SweepSimilar(m, m', Rd(m, f, i as bv9).target, d + 1, 0);
      }
      assert Below(m', f, d, i) == Below(m, f, d, i);
    }
  }

  lemma DestroySimilar(s: State, s': State, h: Handle)
    requires SimilarStates(s, s')
    ensures SimilarStates(DestroySpace(s, h), DestroySpace(s', h))
  {
    SweepSimilar(s.ram.mem, s'.ram.mem, RootOf(s, h), 0, 0);
  }

  lemma Map4KSimilar(s: State, s': State, h: Handle, v: bv64, p: bv64, flags: MapFlags)
    requires SimilarStates(s, s')
    ensures SimilarStates(Map4K(s, h, v, p, flags).0, Map4K(s', h, v, p, flags).0)
    ensures Map4K(s', h, v, p, flags).1 == Map4K(s, h, v, p, flags).1
  {
    MapSimilar(s.ram, s'.ram, RootOf(s, h), PageOf(v), LeafEntry(p, flags, s.nxe));
  }

  lemma Unmap4KSimilar(s: State, s': State, h: Handle, v: bv64)
    requires SimilarStates(s, s')
    ensures SimilarStates(Unmap4K(s, h, v).0, Unmap4K(s', h, v).0) && Unmap4K(s', h, v).1 == Unmap4K(s, h, v).1
  {
    UnmapSimilar(s.ram.mem, s'.ram.mem, RootOf(s, h), PageOf(v), NO_ATTR);
  }

  lemma Protect4KSimilar(s: State, s': State, h: Handle, v: bv64, flags: MapFlags)
    requires SimilarStates(s, s')
    ensures SimilarStates(Protect4K(s, h, v, flags).0, Protect4K(s', h, v, flags).0)
    ensures Protect4K(s', h, v, flags).1 == Protect4K(s, h, v, flags).1
  {
    UnmapSimilar(s.ram.mem, s'.ram.mem, RootOf(s, h), PageOf(v), FlagsToAttr(flags, s.nxe));
  }

  lemma StepSimilar(s: State, s': State, op: Op)
    requires SimilarStates(s, s')
    ensures SimilarStates(Step(s, op), Step(s', op))
  {
    match op
    case New => NewSimilar(s, s');
    case Destroy(h) => DestroySimilar(s, s', h);
    case Map(h, v, p, flags) => Map4KSimilar(s, s', h, v, p, flags);
    case Unmap(h, v) => Unmap4KSimilar(s, s', h, v);
    case Protect(h, v, flags) => Protect4KSimilar(s, s', h, v, flags);
  }

  // ---- Runs with the processor in between -----------------------------------

  /** An operation of the code, or the processor marking an entry of a walk from any root. */
  datatype Act = Call(op: Op) | Mark(root: PhysAddr, page: Page, depth: nat, bits: bv64)

  function ActOn(s: State, a: Act): State {
    match a
    case Call(op) => Step(s, op)
    case Mark(r, page, d, bits) => if d < 4 then s.(ram := s.ram.(mem := Touch(s.ram.mem, r, page, d, bits))) else s
  }

  function ActAll(s: State, acts: seq<Act>): State {
    if acts == [] then s else ActOn(ActAll(s, acts[..|acts| - 1]), acts[|acts| - 1])
  }

  /** The operations alone, in order. */
  function Calls(acts: seq<Act>): seq<Op> {
    if acts == [] then []
    else
      var init := Calls(acts[..|acts| - 1]);
      match acts[|acts| - 1]
      case Call(op) => init + [op]
      case Mark(_, _, _, _) => init
  }

  /**
   Wherever the processor sets accessed and dirty bits during a run, the run ends in
   the state that the operations alone lead to, those bits excepted.
   */
  lemma {:induction false} HardwareBitsInvisible(s: State, acts: seq<Act>)
    ensures SimilarStates(Run(s, Calls(acts)), ActAll(s, acts))
    decreases |acts|
  {
    if acts == [] {
      SimilarToItself(s.ram.mem);
    } else {
      var init := acts[..|acts| - 1];
      var pure, marked := Run(s, Calls(init)), ActAll(s, init);
      HardwareBitsInvisible(s, init);
      match acts[|acts| - 1]
      case Call(op) =>
        StepSimilar(pure, marked, op);
        assert Calls(acts)[..|Calls(acts)| - 1] == Calls(init);
      case Mark(r, page, d, bits) =>
        if d < 4 {
          TouchSimilar(marked.ram.mem, r, page, d, bits);
          SimilarTransitive(pure.ram.mem, marked.ram.mem, Touch(marked.ram.mem, r, page, d, bits));
        }
    }
  }

  /** Callers keep to the rules in the states they find. */
  predicate AllowedActs(s: State, acts: seq<Act>) {
    forall n | 0 <= n < |acts| && acts[n].Call? :: Allowed(ActAll(s, acts[..n]), acts[n].op)
  }

  lemma {:induction false} AllowedCalls(s: State, acts: seq<Act>)
    requires AllowedActs(s, acts)
    ensures AllowedRun(s, Calls(acts))
    decreases |acts|
  {
    if acts != [] {
      var init := acts[..|acts| - 1];
      assert forall n | 0 <= n < |init| :: init[..n] == acts[..n];
      AllowedCalls(s, init);
      if acts[|acts| - 1].Call? {
        HardwareBitsInvisible(s, init);
        SimilarAllowed(Run(s, Calls(init)), ActAll(s, init), acts[|acts| - 1].op);
        AllowedOneMore(s, Calls(init), acts[|acts| - 1].op);
      }
    }
  }

  /** So the invariant holds in every state of such a run, and every address translates as without the processor's marks. */
  lemma MarkedRunKeepsInv(s: State, l: Ledger, acts: seq<Act>, h: Handle, v: bv64)
    requires Inv(s, l) && AllowedActs(s, acts)
    ensures Inv(ActAll(s, acts), LedgerRun(s, l, Calls(acts)))
    ensures Translate(ActAll(s, acts), h, v) == Translate(Run(s, Calls(acts)), h, v)
  {
    HardwareBitsInvisible(s, acts);
    AllowedCalls(s, acts);
    RunKeepsInv(s, l, Calls(acts));
    SimilarInv(Run(s, Calls(acts)), ActAll(s, acts), LedgerRun(s, l, Calls(acts)));
    SimilarTranslate(Run(s, Calls(acts)), ActAll(s, acts), h, v);
  }

  /** A kernel link that a space inherited stays common to both roots, and both walk alike behind it, marks or not. */
  lemma SharingPersistsMarked(s: State, l: Ledger, acts: seq<Act>, page: Page)
    requires Inv(s, l) && NewSpace(s).1.Ok? && AllowedActs(NewSpace(s).0, acts) && Spared(Calls(acts), NewSpace(s).1.value)
    requires page[0] >= KERNEL_PML4_START && Link(Rd(s.ram.mem, s.kernel, page[0]))
    ensures var (n, h) := NewSpace(s);
            var e := ActAll(n, acts);
            && SameLink(Rd(e.ram.mem, RootOf(e, h.value), page[0]), Rd(e.ram.mem, e.kernel, page[0]))
            && Walk(e.ram.mem, RootOf(e, h.value), page) == Walk(e.ram.mem, e.kernel, page)
  {
    var (n, h) := NewSpace(s);
    var pure, e := Run(n, Calls(acts)), ActAll(n, acts);
    AllowedCalls(n, acts);
    SharingPersists(s, l, Calls(acts), page[0], page);
    HardwareBitsInvisible(n, acts);
    assert SimilarAt(pure.ram.mem, e.ram.mem, RootOf(pure, h.value), page[0]) && SimilarAt(pure.ram.mem, e.ram.mem, pure.kernel, page[0]);
    SimilarWalk(pure.ram.mem, e.ram.mem, RootOf(pure, h.value), page);
    SimilarWalk(pure.ram.mem, e.ram.mem, pure.kernel, page);
  }
}
