/**
 `ensure_table`, `map_4k`, `unmap_4k`, `protect_4k` and `translate` on decoded
 memory, on top of a frame supply, together with the ledger that says which frame
 is where.
 */
module PageMapper {
  import opened Wrappers
  import opened Pte
  import opened FrameSupply
  import opened PageTree
  import opened TableEdits

  /** What the page-table code reads and writes. */
  datatype Ram = Ram(mem: Memory, supply: Supply)

  function EnsureTable(s: Ram, parent: PhysAddr, i: Index, user: bool): (Ram, Result<PhysAddr>) {
    var e := Rd(s.mem, parent, i);
    if e.attr.present then
      (s, Ok(e.target))
    else
      var (supply, frame) := Alloc(s.supply);
      match frame
      case None => (s.(supply := supply), Err(OutOfMemory))
      case Some(f) => (Ram(LinkTable(s.mem, parent, i, f, user), supply), Ok(f))
  }

  /** The first two descents of `map_4k`: the PD of a page, made if need be. */
  function EnsurePd(s: Ram, root: PhysAddr, page: Page, user: bool): (Ram, Result<PhysAddr>) {
    var (s', pdpt) := EnsureTable(s, root, page[0], user);
    if pdpt.Err? then (s', pdpt) else EnsureTable(s', pdpt.value, page[1], user)
  }

  /** All three descents: the last-level table of a page, made if need be. */
  function EnsurePath(s: Ram, root: PhysAddr, page: Page, user: bool): (Ram, Result<PhysAddr>) {
    var (s', pd) := EnsurePd(s, root, page, user);
    if pd.Err? then (s', pd) else EnsureTable(s', pd.value, page[2], user)
  }

  /** The part of `map_4k` after its argument checks. */
  function MapPage(s: Ram, root: PhysAddr, page: Page, e: Entry): (Ram, Result<()>) {
    var (s', pt) := EnsurePath(s, root, page, e.attr.user);
    if pt.Err? then (s', Err(pt.error))
    else if Rd(s'.mem, pt.value, page[3]).attr.present then (s', Err(AlreadyMapped))
    else (s'.(mem := Wr(s'.mem, pt.value, page[3], e)), Ok(()))
  }

  /** The walk the code makes: it follows every present entry, large page or not. */
  function Walk(m: Memory, root: PhysAddr, page: Page): Option<PhysAddr> {
    var e1 := Rd(m, root, page[0]);
    if !e1.attr.present then None else
    var e2 := Rd(m, e1.target, page[1]);
    if !e2.attr.present then None else
    var e3 := Rd(m, e2.target, page[2]);
    if !e3.attr.present then None else
    if Rd(m, e3.target, page[3]).attr.present then Some(e3.target) else None
  }

  function UnmapPage(m: Memory, root: PhysAddr, page: Page): (Memory, Result<()>) {
    match Walk(m, root, page)
    case None => (m, Err(NotMapped))
    case Some(pt) => (Wr(m, pt, page[3], ZERO_ENTRY), Ok(()))
  }

  function ProtectPage(m: Memory, root: PhysAddr, page: Page, attr: Attr): (Memory, Result<()>) {
    match Walk(m, root, page)
    case None => (m, Err(NotMapped))
    case Some(pt) => (Wr(m, pt, page[3], Entry(Rd(m, pt, page[3]).target, attr)), Ok(()))
  }

  // ---- The ledger -----------------------------------------------------------

  /**
   Which table frame is where (`own`), which of them the boot loader supplied
   (`boot`), which frames the allocator was given (`all`) and which of those are
   lost for good (`dropped`).
   */
  datatype Ledger = Ledger(own: Ownership, boot: set<PhysAddr>, all: set<PhysAddr>, dropped: set<PhysAddr>)

  /** The table frames that came from the allocator. */
  ghost function Taken(l: Ledger): set<PhysAddr> {
    l.own.nodes.Keys - l.boot
  }

  ghost predicate Balanced(s: Ram, l: Ledger) {
    && Tree(s.mem, l.own)
    && l.boot <= l.own.nodes.Keys && l.boot !! l.all
    && Partition(s.supply, l.all, Taken(l), l.dropped)
    && (forall f {:trigger f in l.all} :: f in l.all ==> IsFrame(f.raw))
    && (forall f {:trigger f in l.boot} :: f in l.boot ==> l.own.nodes[f].root == l.own.kernel)
  }

  ghost function EnsureLedger(s: Ram, l: Ledger, parent: PhysAddr, i: Index): Ledger {
    var f := Alloc(s.supply).1;
    if Rd(s.mem, parent, i).attr.present || f.None? || parent !in l.own.nodes then l
    else l.(own := Adopt(l.own, parent, i, f.value))
  }

  predicate SameTable(m: Memory, m': Memory, g: Ownership, r: PhysAddr, p: Path, d: nat) {
    Live(g, r) && d <= |p| && d <= 3 && At(m, r, p, d).Some? ==> At(m', r, p, d) == At(m, r, p, d)
  }

  /** Walks that arrived still arrive at the same table. */
  ghost predicate KeepsTables(m: Memory, m': Memory, g: Ownership) {
    forall r, p: Path, d: nat :: SameTable(m, m', g, r, p, d)
  }

  predicate SameEntry(m: Memory, m': Memory, g: Ownership, f: PhysAddr, j: Index) {
    f in g.nodes && |g.nodes[f].path| < 3 && Rd(m, f, j).attr.present ==> Rd(m', f, j) == Rd(m, f, j)
  }

  /** Present entries above the last level are never rewritten. */
  ghost predicate KeepsEntries(m: Memory, m': Memory, g: Ownership) {
    forall f, j :: SameEntry(m, m', g, f, j)
  }

  predicate SameLeaf(m: Memory, m': Memory, g: Ownership, r: PhysAddr, page: Page) {
    Live(g, r) ==> Leaf(m', r, page) == Leaf(m, r, page)
  }

  /** No address space gained, lost or changed a binding. */
  ghost predicate KeepsLeaves(m: Memory, m': Memory, g: Ownership) {
    forall r, page: Page :: SameLeaf(m, m', g, r, page)
  }

  predicate StaysSmall(m: Memory, m': Memory, g: Ownership, r: PhysAddr, page: Page) {
    Live(g, r) && SmallPath(m, r, page) ==> SmallPath(m', r, page)
  }

  /** What every operation leaves alone: tables, the links to them, and the absence of large pages. */
  ghost predicate Keeps(m: Memory, m': Memory, g: Ownership) {
    && KeepsTables(m, m', g)
    && KeepsEntries(m, m', g)
    && (forall r, page: Page :: StaysSmall(m, m', g, r, page))
  }

  /** `g1` has the roots of `g` and all of its tables. */
  ghost predicate Includes(g: Ownership, g1: Ownership) {
    && g1.kernel == g.kernel && g1.spaces == g.spaces
    && (forall f {:trigger f in g1.nodes} :: f in g.nodes ==> f in g1.nodes && g1.nodes[f] == g.nodes[f])
  }

  lemma KeepsTransitive(m: Memory, g: Ownership, m1: Memory, g1: Ownership, m2: Memory)
    requires Includes(g, g1)
    requires Keeps(m, m1, g) && Keeps(m1, m2, g1)
    ensures Keeps(m, m2, g)
    ensures KeepsLeaves(m, m1, g) && KeepsLeaves(m1, m2, g1) ==> KeepsLeaves(m, m2, g)
  {
    forall r, p: Path, d: nat ensures SameTable(m, m2, g, r, p, d) {
      assert SameTable(m, m1, g, r, p, d) && SameTable(m1, m2, g1, r, p, d);
    }
    forall f, j ensures SameEntry(m, m2, g, f, j) {
      assert SameEntry(m, m1, g, f, j) && SameEntry(m1, m2, g1, f, j);
      if f in g.nodes { assert f in g1.nodes; }
    }
    forall r, page: Page ensures StaysSmall(m, m2, g, r, page) {
      assert StaysSmall(m, m1, g, r, page) && StaysSmall(m1, m2, g1, r, page);
    }
    if KeepsLeaves(m, m1, g) && KeepsLeaves(m1, m2, g1) {
      forall r, page: Page ensures SameLeaf(m, m2, g, r, page) {
        assert SameLeaf(m, m1, g, r, page) && SameLeaf(m1, m2, g1, r, page);
      }
    }
  }

  lemma EnsureTableCanLink(s: Ram, l: Ledger, parent: PhysAddr, i: Index)
    requires Balanced(s, l) && parent in l.own.nodes && |l.own.nodes[parent].path| < 3
    requires !Rd(s.mem, parent, i).attr.present && Alloc(s.supply).1.Some?
    ensures CanLink(s.mem, l.own, parent, i, Alloc(s.supply).1.value)
    ensures Alloc(s.supply).1.value in l.all && Alloc(s.supply).1.value !in l.dropped
    ensures Partition(Alloc(s.supply).0, l.all, Taken(l) + {Alloc(s.supply).1.value}, l.dropped)
  {
    AllocKeepsPartition(s.supply, l.all, Taken(l), l.dropped);
    var f := Alloc(s.supply).1.value;
    assert f in l.all && f !in Taken(l);
  }

  lemma EnsureTableKeepsBalance(s: Ram, l: Ledger, parent: PhysAddr, i: Index, user: bool)
    requires Balanced(s, l) && parent in l.own.nodes && |l.own.nodes[parent].path| < 3
    ensures Balanced(EnsureTable(s, parent, i, user).0, EnsureLedger(s, l, parent, i))
  {
    var l' := EnsureLedger(s, l, parent, i);
    if !Rd(s.mem, parent, i).attr.present {
      var f := Alloc(s.supply).1;
      if f.Some? {
        EnsureTableCanLink(s, l, parent, i);
        LinkKeepsTree(s.mem, l.own, parent, i, f.value, user);
        assert Taken(l') == Taken(l) + {f.value};
      } else {
        AllocKeepsPartition(s.supply, l.all, Taken(l), l.dropped);
      }
    }
  }

  lemma EnsureTableKeepsMeaning(s: Ram, l: Ledger, parent: PhysAddr, i: Index, user: bool)
    requires Balanced(s, l) && parent in l.own.nodes && |l.own.nodes[parent].path| < 3
    ensures Keeps(s.mem, EnsureTable(s, parent, i, user).0.mem, l.own)
    ensures KeepsLeaves(s.mem, EnsureTable(s, parent, i, user).0.mem, l.own)
  {
    var f := Alloc(s.supply).1;
    if !Rd(s.mem, parent, i).attr.present && f.Some? {
      EnsureTableCanLink(s, l, parent, i);
      LinkReads(s.mem, l.own, parent, i, f.value, user);
      var m' := LinkTable(s.mem, parent, i, f.value, user);
      forall r, p: Path, d: nat ensures SameTable(s.mem, m', l.own, r, p, d) {
        if Live(l.own, r) && d <= |p| && d <= 3 {
          LinkAt(s.mem, l.own, parent, i, f.value, user, r, p, d);
        }
      }
      forall r, page: Page ensures StaysSmall(s.mem, m', l.own, r, page) {
        if Live(l.own, r) && SmallPath(s.mem, r, page) {
          LinkKeepsSmallPath(s.mem, l.own, parent, i, f.value, user, r, page);
        }
      }
      forall r, page: Page ensures SameLeaf(s.mem, m', l.own, r, page) {
        if Live(l.own, r) {
          LinkKeepsLeaf(s.mem, l.own, parent, i, f.value, user, r, page);
        }
      }
    }
  }

  // ---- Mapping --------------------------------------------------------------

  /** What a sequence of `ensure_table` calls leaves alone. */
  ghost predicate Grows(s: Ram, l: Ledger, s': Ram, l': Ledger) {
    && Balanced(s', l')
    && Keeps(s.mem, s'.mem, l.own)
    && KeepsLeaves(s.mem, s'.mem, l.own)
    && Includes(l.own, l'.own)
    && l'.boot == l.boot && l'.all == l.all && l'.dropped == l.dropped
  }

  lemma GrowsTransitive(s: Ram, l: Ledger, s1: Ram, l1: Ledger, s2: Ram, l2: Ledger)
    requires Grows(s, l, s1, l1) && Grows(s1, l1, s2, l2)
    ensures Grows(s, l, s2, l2)
  {
    KeepsTransitive(s.mem, l.own, s1.mem, l1.own, s2.mem);
    forall f | f in l.own.nodes ensures f in l2.own.nodes && l2.own.nodes[f] == l.own.nodes[f] {
      assert f in l1.own.nodes;
    }
  }

  /** One descent: either the next table of the path is there afterwards, or memory ran out and nothing changed. */
  lemma EnsureOnPath(s: Ram, l: Ledger, r: PhysAddr, page: Page, d: nat, user: bool)
    requires Balanced(s, l) && Live(l.own, r) && d < 3 && At(s.mem, r, page, d).Some? && SmallPath(s.mem, r, page)
    ensures var parent := At(s.mem, r, page, d).value;
            var (s', t) := EnsureTable(s, parent, page[d], user);
            var l' := EnsureLedger(s, l, parent, page[d]);
            && Grows(s, l, s', l')
            && (t.Ok? ==> At(s'.mem, r, page, d + 1) == Some(t.value) && SmallPath(s'.mem, r, page))
            && (t.Err? ==> t.error == OutOfMemory && s' == s && l' == l && l.all == Taken(l) + l.dropped)
  {
    var parent := At(s.mem, r, page, d).value;
    WalkOwned(s.mem, l.own, r, page, d);
    EnsureTableKeepsBalance(s, l, parent, page[d], user);
    EnsureTableKeepsMeaning(s, l, parent, page[d], user);
    AllocKeepsPartition(s.supply, l.all, Taken(l), l.dropped);
    if EnsureTable(s, parent, page[d], user).1.Ok? {
      if !Rd(s.mem, parent, page[d]).attr.present {
        NewTableOnPath(s, l, r, page, d, user);
      }
    }
  }

  lemma NewTableOnPath(s: Ram, l: Ledger, r: PhysAddr, page: Page, d: nat, user: bool)
    requires Balanced(s, l) && Live(l.own, r) && d < 3 && At(s.mem, r, page, d).Some? && SmallPath(s.mem, r, page)
    requires !Rd(s.mem, At(s.mem, r, page, d).value, page[d]).attr.present && Alloc(s.supply).1.Some?
    ensures var f := Alloc(s.supply).1.value;
            var m' := LinkTable(s.mem, At(s.mem, r, page, d).value, page[d], f, user);
            At(m', r, page, d + 1) == Some(f) && SmallPath(m', r, page)
  {
    var parent, f := At(s.mem, r, page, d).value, Alloc(s.supply).1.value;
    var m' := LinkTable(s.mem, parent, page[d], f, user);
    WalkOwned(s.mem, l.own, r, page, d);
    EnsureTableCanLink(s, l, parent, page[d]);
    LinkReads(s.mem, l.own, parent, page[d], f, user);
    LinkAt(s.mem, l.own, parent, page[d], f, user, r, page, d);
    assert At(m', r, page, d) == Some(parent);
    LinkKeepsSmallPath(s.mem, l.own, parent, page[d], f, user, r, page);
  }

  /** The path to depth `d` is there, or memory ran out on the way. */
  ghost predicate Reached(s: Ram, l: Ledger, r: PhysAddr, page: Page, d: nat, t: Result<PhysAddr>) {
    && (t.Ok? ==> d <= 3 && At(s.mem, r, page, d) == Some(t.value) && SmallPath(s.mem, r, page))
    && (t.Err? ==> t.error == OutOfMemory && l.all == Taken(l) + l.dropped)
  }

  lemma Descend(s: Ram, l: Ledger, s1: Ram, l1: Ledger, r: PhysAddr, page: Page, d: nat, t: PhysAddr, user: bool)
    requires Grows(s, l, s1, l1) && Live(l.own, r) && d < 3 && Reached(s1, l1, r, page, d, Ok(t))
    ensures var (s2, t2) := EnsureTable(s1, t, page[d], user);
            var l2 := EnsureLedger(s1, l1, t, page[d]);
            Grows(s, l, s2, l2) && Reached(s2, l2, r, page, d + 1, t2)
  {
    assert Live(l1.own, r);
    EnsureOnPath(s1, l1, r, page, d, user);
    GrowsTransitive(s, l, s1, l1, EnsureTable(s1, t, page[d], user).0, EnsureLedger(s1, l1, t, page[d]));
  }

  ghost function EnsurePdLedger(s: Ram, l: Ledger, root: PhysAddr, page: Page, user: bool): Ledger {
    var l' := EnsureLedger(s, l, root, page[0]);
    var (s', pdpt) := EnsureTable(s, root, page[0], user);
    if pdpt.Err? then l' else EnsureLedger(s', l', pdpt.value, page[1])
  }

  ghost function EnsurePathLedger(s: Ram, l: Ledger, root: PhysAddr, page: Page, user: bool): Ledger {
    var l' := EnsurePdLedger(s, l, root, page, user);
    var (s', pd) := EnsurePd(s, root, page, user);
    if pd.Err? then l' else EnsureLedger(s', l', pd.value, page[2])
  }

  lemma EnsurePdGrows(s: Ram, l: Ledger, r: PhysAddr, page: Page, user: bool)
    requires Balanced(s, l) && Live(l.own, r) && SmallPath(s.mem, r, page)
    ensures Grows(s, l, EnsurePd(s, r, page, user).0, EnsurePdLedger(s, l, r, page, user))
    ensures Reached(EnsurePd(s, r, page, user).0, EnsurePdLedger(s, l, r, page, user), r, page, 2, EnsurePd(s, r, page, user).1)
  {
    var (s1, pdpt) := EnsureTable(s, r, page[0], user);
    assert At(s.mem, r, page, 0) == Some(r);
    EnsureOnPath(s, l, r, page, 0, user);
    if pdpt.Ok? {
      Descend(s, l, s1, EnsureLedger(s, l, r, page[0]), r, page, 1, pdpt.value, user);
    }
  }

  /** The descents of `map_4k` leave every binding alone, also when memory runs out half way. */
  lemma EnsurePathGrows(s: Ram, l: Ledger, r: PhysAddr, page: Page, user: bool)
    requires Balanced(s, l) && Live(l.own, r) && SmallPath(s.mem, r, page)
    ensures Grows(s, l, EnsurePath(s, r, page, user).0, EnsurePathLedger(s, l, r, page, user))
    ensures Reached(EnsurePath(s, r, page, user).0, EnsurePathLedger(s, l, r, page, user), r, page, 3, EnsurePath(s, r, page, user).1)
  {
    EnsurePdGrows(s, l, r, page, user);
    var (s2, pd) := EnsurePd(s, r, page, user);
    if pd.Ok? {
      Descend(s, l, s2, EnsurePdLedger(s, l, r, page, user), r, page, 2, pd.value, user);
    }
  }

  /** Once the last-level table of a page exists, the descents find it and touch nothing. */
  lemma EnsurePathFinds(s: Ram, r: PhysAddr, page: Page, user: bool)
    requires At(s.mem, r, page, 3).Some?
    ensures EnsurePath(s, r, page, user) == (s, Ok(At(s.mem, r, page, 3).value))
  {
    assert At(s.mem, r, page, 0) == Some(r);
    assert At(s.mem, r, page, 2).Some? && At(s.mem, r, page, 1).Some?;
  }
}
