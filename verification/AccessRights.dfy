/**
 What the processor lets be done with a mapped page.

 It grants a user access only if all four entries of the walk have the user bit, a
 write only if all four are writable, and execution only if none has the no-execute bit.
 `ensure_table` makes links writable, executable, and open to user mode as asked, and
 changes no link it finds, so a mapping gives the rights of its flags exactly as far as
 the links already there do.
 */
module AccessRights {
  import opened Wrappers
  import opened Pte
  import opened FrameSupply
  import opened PageTree
  import opened TableEdits
  import opened PageMapper
  import opened Views
  import opened Slots
  import opened Machine
  import opened Runs

  datatype Right = User | Write | Exec

  predicate Grants(a: Attr, x: Right) {
    match x
    case User => a.user
    case Write => a.writable
    case Exec => !a.noExec
  }

  /** What a link made on the way to a mapping grants. */
  predicate NewLinkGrants(x: Right, user: bool) {
    x == User ==> user
  }

  /** The walk arrives at depth `d` and finds the next entry present. */
  predicate HasLink(m: Memory, r: PhysAddr, page: Page, d: nat)
    requires d < 3
  {
    At(m, r, page, d).Some? && Rd(m, At(m, r, page, d).value, page[d]).attr.present
  }

  predicate GrantingLink(m: Memory, r: PhysAddr, page: Page, x: Right, d: nat)
    requires d < 3
  {
    HasLink(m, r, page, d) && Grants(Rd(m, At(m, r, page, d).value, page[d]).attr, x)
  }

  /** All four entries of the walk grant the right. */
  predicate Permits(m: Memory, r: PhysAddr, page: Page, x: Right) {
    && Leaf(m, r, page).Some? && Grants(Leaf(m, r, page).value.attr, x)
    && forall d | 0 <= d < 3 :: GrantingLink(m, r, page, x, d)
  }

  /** Every link of the path that is already there grants the right. */
  predicate ExistingLinksGrant(m: Memory, r: PhysAddr, page: Page, x: Right) {
    forall d | 0 <= d < 3 :: HasLink(m, r, page, d) ==> GrantingLink(m, r, page, x, d)
  }

  /** From `m` to `m'` old links of the path kept what they grant and new ones grant what they should. */
  predicate MarkedAt(m: Memory, m': Memory, r: PhysAddr, page: Page, user: bool, x: Right, d: nat)
    requires d < 3
  {
    && (HasLink(m, r, page, d) ==> HasLink(m', r, page, d) && GrantingLink(m', r, page, x, d) == GrantingLink(m, r, page, x, d))
    && (HasLink(m', r, page, d) && !HasLink(m, r, page, d) ==> GrantingLink(m', r, page, x, d) == NewLinkGrants(x, user))
  }

  ghost predicate Marked(m: Memory, m': Memory, r: PhysAddr, page: Page, user: bool, x: Right) {
    forall d: nat {:trigger MarkedAt(m, m', r, page, user, x, d)} :: d < 3 ==> MarkedAt(m, m', r, page, user, x, d)
  }

  lemma MarkedTransitive(m: Memory, m1: Memory, m2: Memory, r: PhysAddr, page: Page, user: bool, x: Right)
    requires Marked(m, m1, r, page, user, x) && Marked(m1, m2, r, page, user, x)
    ensures Marked(m, m2, r, page, user, x)
  {
    forall d: nat | d < 3 ensures MarkedAt(m, m2, r, page, user, x, d) {
      assert MarkedAt(m, m1, r, page, user, x, d) && MarkedAt(m1, m2, r, page, user, x, d);
    }
  }

  /** One `ensure_table` on the path. */
  lemma EnsureMarks(s: Ram, l: Ledger, r: PhysAddr, page: Page, d: nat, user: bool, x: Right)
    requires Balanced(s, l) && Live(l.own, r) && d < 3 && At(s.mem, r, page, d).Some?
    ensures Marked(s.mem, EnsureTable(s, At(s.mem, r, page, d).value, page[d], user).0.mem, r, page, user, x)
  {
    var parent := At(s.mem, r, page, d).value;
    var m' := EnsureTable(s, parent, page[d], user).0.mem;
    WalkOwned(s.mem, l.own, r, page, d);
    if !Rd(s.mem, parent, page[d]).attr.present && Alloc(s.supply).1.Some? {
      var f := Alloc(s.supply).1.value;
      EnsureTableCanLink(s, l, parent, page[d]);
      forall k: nat | k < 3 ensures MarkedAt(s.mem, m', r, page, user, x, k) {
        LinkMarks(s.mem, l.own, parent, page[d], f, user, r, page, x, k);
      }
    } else {
      assert m' == s.mem;
    }
  }

  lemma LinkMarks(m: Memory, g: Ownership, parent: PhysAddr, i: Index, frame: PhysAddr, user: bool,
                  r: PhysAddr, page: Page, x: Right, k: nat)
    requires CanLink(m, g, parent, i, frame) && Live(g, r) && k < 3
    ensures MarkedAt(m, LinkTable(m, parent, i, frame, user), r, page, user, x, k)
  {
    LinkReads(m, g, parent, i, frame, user);
    LinkAt(m, g, parent, i, frame, user, r, page, k);
    if At(m, r, page, k).Some? {
      WalkOwned(m, g, r, page, k);
    }
  }

  lemma EnsurePdMarks(s: Ram, l: Ledger, r: PhysAddr, page: Page, user: bool, x: Right)
    requires Balanced(s, l) && Live(l.own, r) && SmallPath(s.mem, r, page)
    ensures Marked(s.mem, EnsurePd(s, r, page, user).0.mem, r, page, user, x)
  {
    assert At(s.mem, r, page, 0) == Some(r);
    var (s1, pdpt) := EnsureTable(s, r, page[0], user);
    var l1 := EnsureLedger(s, l, r, page[0]);
    EnsureMarks(s, l, r, page, 0, user, x);
    EnsureOnPath(s, l, r, page, 0, user);
    if pdpt.Ok? {
      assert Live(l1.own, r);
      EnsureMarks(s1, l1, r, page, 1, user, x);
      MarkedTransitive(s.mem, s1.mem, EnsureTable(s1, pdpt.value, page[1], user).0.mem, r, page, user, x);
    }
  }

  lemma EnsurePathMarks(s: Ram, l: Ledger, r: PhysAddr, page: Page, user: bool, x: Right)
    requires Balanced(s, l) && Live(l.own, r) && SmallPath(s.mem, r, page)
    ensures Marked(s.mem, EnsurePath(s, r, page, user).0.mem, r, page, user, x)
  {
    var (s2, pd) := EnsurePd(s, r, page, user);
    var l2 := EnsurePdLedger(s, l, r, page, user);
    EnsurePdMarks(s, l, r, page, user, x);
    EnsurePdGrows(s, l, r, page, user);
    if pd.Ok? {
      assert Live(l2.own, r);
      EnsureMarks(s2, l2, r, page, 2, user, x);
      MarkedTransitive(s.mem, s2.mem, EnsureTable(s2, pd.value, page[2], user).0.mem, r, page, user, x);
    }
  }

  lemma LeafWriteMarks(m: Memory, g: Ownership, r: PhysAddr, page: Page, e: Entry, user: bool, x: Right)
    requires Tree(m, g) && Live(g, r) && At(m, r, page, 3).Some?
    ensures Marked(m, Wr(m, At(m, r, page, 3).value, page[3], e), r, page, user, x)
  {
    var pt := At(m, r, page, 3).value;
    WalkOwned(m, g, r, page, 3);
    forall d: nat | d < 3 ensures MarkedAt(m, Wr(m, pt, page[3], e), r, page, user, x, d) {
      LeafWriteAt(m, g, pt, page[3], e, r, page, d);
      if At(m, r, page, d).Some? {
        WalkOwned(m, g, r, page, d);
      }
    }
  }

  lemma MapMarks(s: Ram, l: Ledger, r: PhysAddr, page: Page, e: Entry, x: Right)
    requires Balanced(s, l) && Live(l.own, r) && SmallPath(s.mem, r, page) && MapPage(s, r, page, e).1.Ok?
    ensures Marked(s.mem, MapPage(s, r, page, e).0.mem, r, page, e.attr.user, x)
    ensures At(MapPage(s, r, page, e).0.mem, r, page, 3).Some?
  {
    var (s1, pt) := EnsurePath(s, r, page, e.attr.user);
    var l1 := EnsurePathLedger(s, l, r, page, e.attr.user);
    EnsurePathMarks(s, l, r, page, e.attr.user, x);
    EnsurePathGrows(s, l, r, page, e.attr.user);
    assert Live(l1.own, r);
    LeafWriteMarks(s1.mem, l1.own, r, page, e, e.attr.user, x);
    WalkOwned(s1.mem, l1.own, r, page, 3);
    LeafWriteAt(s1.mem, l1.own, pt.value, page[3], e, r, page, 3);
    MarkedTransitive(s.mem, s1.mem, Wr(s1.mem, pt.value, page[3], e), r, page, e.attr.user, x);
  }

  lemma ArrivedThroughLinks(m: Memory, r: PhysAddr, page: Page, d: nat)
    requires d < 3 && At(m, r, page, 3).Some?
    ensures HasLink(m, r, page, d)
  {
    assert At(m, r, page, 2).Some? && At(m, r, page, 1).Some? && At(m, r, page, 0).Some?;
  }

  /** A successful map gives a right if and only if its entry grants it and the links it found already did. */
  lemma MapPermits(s: Ram, l: Ledger, r: PhysAddr, page: Page, e: Entry, x: Right)
    requires Balanced(s, l) && Live(l.own, r) && SmallPath(s.mem, r, page)
    requires e.attr.present && MapPage(s, r, page, e).1.Ok?
    ensures Permits(MapPage(s, r, page, e).0.mem, r, page, x) <==> Grants(e.attr, x) && ExistingLinksGrant(s.mem, r, page, x)
  {
    var m' := MapPage(s, r, page, e).0.mem;
    MapRefinesUpdate(s, l, r, page, e);
    assert EditedIn(s.mem, m', l.own, r, page, Some(e), r);
    assert View(m', r)[page] == e;
    MapMarks(s, l, r, page, e, x);
    forall d: nat | d < 3 && Grants(e.attr, x)
      ensures GrantingLink(m', r, page, x, d) <==> (HasLink(s.mem, r, page, d) ==> GrantingLink(s.mem, r, page, x, d))
    {
      ArrivedThroughLinks(m', r, page, d);
      assert MarkedAt(s.mem, m', r, page, e.attr.user, x, d);
    }
  }

  /** Protecting a page gives a right if and only if the new flags do and all links already did. */
  lemma ProtectPermits(m: Memory, g: Ownership, r: PhysAddr, page: Page, attr: Attr, x: Right)
    requires Tree(m, g) && Live(g, r) && SmallPath(m, r, page) && attr.present && ProtectPage(m, r, page, attr).1.Ok?
    ensures Permits(ProtectPage(m, r, page, attr).0, r, page, x) <==> Grants(attr, x) && ExistingLinksGrant(m, r, page, x)
  {
    WalkIsLeaf(m, r, page);
    var e := Entry(Rd(m, At(m, r, page, 3).value, page[3]).target, attr);
    var m' := ProtectPage(m, r, page, attr).0;
    LeafWriteMarks(m, g, r, page, e, attr.user, x);
    LeafWriteEdits(m, g, r, page, e);
    assert SameTable(m, m', g, r, page, 3);
    assert Leaf(m', r, page) == Some(e);
    forall d: nat | d < 3 ensures HasLink(m, r, page, d) && GrantingLink(m', r, page, x, d) == GrantingLink(m, r, page, x, d) {
      ArrivedThroughLinks(m, r, page, d);
      assert MarkedAt(m, m', r, page, attr.user, x, d);
    }
  }

  /**
   A region first mapped without USER stays closed to user mode: a later USER map of
   any other page in the same 2 MiB succeeds and is not reachable.
   */
  lemma KernelFirstHidesUser(s: Ram, l: Ledger, r: PhysAddr, page: Page, e: Entry, page': Page, e': Entry)
    requires Balanced(s, l) && Live(l.own, r) && SmallPath(s.mem, r, page) && At(s.mem, r, page, 3).None?
    requires e.attr.present && !e.attr.user && MapPage(s, r, page, e).1.Ok?
    requires page'[..3] == page[..3] && page' != page && e'.attr.present && e'.attr.user
    ensures var (s2, res) := MapPage(MapPage(s, r, page, e).0, r, page', e');
            res.Ok? && Leaf(s2.mem, r, page') == Some(e') && !Permits(s2.mem, r, page', User)
  {
    var s1, l1 := MapPage(s, r, page, e).0, MapLedger(s, l, r, page, e);
    MapRefinesUpdate(s, l, r, page, e);
    KernelFirstMarks(s, l, r, page, e, page');
    assert Live(l1.own, r) && StaysSmall(s.mem, s1.mem, l.own, r, page);
    SmallRegion(s1.mem, r, page, page');
    SecondMapSucceeds(s, l, r, page, e, page', e');
    MapPermits(s1, l1, r, page', e', User);
  }

  /** With the table of the region in place the second map succeeds. */
  lemma SecondMapSucceeds(s: Ram, l: Ledger, r: PhysAddr, page: Page, e: Entry, page': Page, e': Entry)
    requires Balanced(s, l) && Live(l.own, r) && SmallPath(s.mem, r, page) && At(s.mem, r, page, 3).None?
    requires e.attr.present && MapPage(s, r, page, e).1.Ok?
    requires page'[..3] == page[..3] && page' != page && e'.attr.present
    ensures var (s2, res) := MapPage(MapPage(s, r, page, e).0, r, page', e');
            res.Ok? && Leaf(s2.mem, r, page') == Some(e')
  {
    var s1, l1 := MapPage(s, r, page, e).0, MapLedger(s, l, r, page, e);
    MapRefinesUpdate(s, l, r, page, e);
    AtPrefix(s.mem, r, page, page', 3);
    AtPrefix(s1.mem, r, page, page', 3);
    assert EditedIn(s.mem, s1.mem, l.own, r, page, Some(e), r);
    assert page' !in View(s1.mem, r);
    EnsurePathFinds(s1, r, page', e'.attr.user);
    WalkOwned(s1.mem, l1.own, r, page', 3);
    LeafWriteAt(s1.mem, l1.own, At(s1.mem, r, page', 3).value, page'[3], e', r, page', 3);
  }

  /** The table made by a map without USER is a link without the user bit on every page of the region. */
  lemma KernelFirstMarks(s: Ram, l: Ledger, r: PhysAddr, page: Page, e: Entry, page': Page)
    requires Balanced(s, l) && Live(l.own, r) && SmallPath(s.mem, r, page) && At(s.mem, r, page, 3).None?
    requires !e.attr.user && MapPage(s, r, page, e).1.Ok? && page'[..3] == page[..3]
    ensures !ExistingLinksGrant(MapPage(s, r, page, e).0.mem, r, page', User)
  {
    var m1 := MapPage(s, r, page, e).0.mem;
    MapMarks(s, l, r, page, e, User);
    var d := AbsentLink(s.mem, r, page);
    ArrivedThroughLinks(m1, r, page, d);
    assert MarkedAt(s.mem, m1, r, page, false, User, d);
    SameRegionSameLink(m1, r, page, page', d);
  }

  lemma SameRegionSameLink(m: Memory, r: PhysAddr, page: Page, page': Page, d: nat)
    requires page'[..3] == page[..3] && d < 3
    ensures HasLink(m, r, page', d) == HasLink(m, r, page, d) && GrantingLink(m, r, page', User, d) == GrantingLink(m, r, page, User, d)
  {
    assert page[..d] == page[..3][..d] && page'[..d] == page'[..3][..d];
    assert page[d] == page[..3][d] && page'[d] == page'[..3][d];
    AtPrefix(m, r, page, page', d);
  }

  lemma AbsentLink(m: Memory, r: PhysAddr, page: Page) returns (d: nat)
    requires At(m, r, page, 3).None? && SmallPath(m, r, page)
    ensures d < 3 && !HasLink(m, r, page, d)
  {
    assert At(m, r, page, 0) == Some(r);
    if !HasLink(m, r, page, 0) {
      return 0;
    }
    assert At(m, r, page, 1).Some?;
    if !HasLink(m, r, page, 1) {
      return 1;
    }
    assert At(m, r, page, 2).Some?;
    return 2;
  }

  lemma SmallRegion(m: Memory, r: PhysAddr, page: Page, page': Page)
    requires SmallPath(m, r, page) && page'[..3] == page[..3]
    ensures SmallPath(m, r, page')
  {
  }

  // ---- In every reachable state ---------------------------------------------

  /**
   In every reachable state every link on the way to a lower-half page of a created
   space is writable and executable, so that the flags of the page alone decide.
   */
  lemma LowerLinksOpen(s: State, l: Ledger, ops: seq<Op>, h: Handle, page: Page, d: nat)
    requires Inv(s, l) && AllowedRun(s, ops) && LiveSlot(Run(s, ops).slots, h) && page[0] < KERNEL_PML4_START && d < 3
    ensures var e := Run(s, ops);
            var t := At(e.ram.mem, RootOf(e, h), page, d);
            t.Some? && Rd(e.ram.mem, t.value, page[d]).attr.present ==>
              Rd(e.ram.mem, t.value, page[d]).attr.writable && !Rd(e.ram.mem, t.value, page[d]).attr.noExec
  {
    var e, k := Run(s, ops), LedgerRun(s, l, ops);
    RunKeepsInv(s, l, ops);
    LiveHandleRoot(e, k, h);
    if At(e.ram.mem, RootOf(e, h), page, d).Some? {
      OpenLink(e.ram.mem, k.own, RootOf(e, h), page, d);
    }
  }

  lemma OpenLink(m: Memory, g: Ownership, r: PhysAddr, page: Page, d: nat)
    requires Tree(m, g) && r in g.spaces && page[0] < KERNEL_PML4_START && d < 3 && At(m, r, page, d).Some?
    ensures Unrestricted(Rd(m, At(m, r, page, d).value, page[d]))
  {
    assert Live(g, r) && Live(g, g.kernel);
    WalkOwned(m, g, r, page, d);
    assert PlainEntry(m, g, At(m, r, page, d).value, page[d]);
  }

  /**
   What a successful map lets the processor do with its page, by the bits of the flags:
   write with bit 1, execute with bit 2 or with no-execute off, use from user mode with
   bit 3, each if and only if the links already on the path let it.
   */
  lemma MappedRights(s: State, l: Ledger, h: Handle, v: bv64, p: bv64, flags: MapFlags)
    requires Inv(s, l) && Allowed(s, Map(h, v, p, flags)) && Map4K(s, h, v, p, flags).1.Ok?
    ensures var m, m', r, page := s.ram.mem, Map4K(s, h, v, p, flags).0.ram.mem, RootOf(s, h), PageOf(v);
            && (Permits(m', r, page, Write) <==> flags & 0x2 != 0 && ExistingLinksGrant(m, r, page, Write))
            && (Permits(m', r, page, Exec) <==> (flags & 0x4 != 0 || !s.nxe) && ExistingLinksGrant(m, r, page, Exec))
            && (Permits(m', r, page, User) <==> flags & 0x8 != 0 && ExistingLinksGrant(m, r, page, User))
  {
    var r, page, e := RootOf(s, h), PageOf(v), LeafEntry(p, flags, s.nxe);
    LiveHandleRoot(s, l, h);
    FlagsByBit(flags, s.nxe);
    MapPermits(s.ram, l, r, page, e, Write);
    MapPermits(s.ram, l, r, page, e, Exec);
    MapPermits(s.ram, l, r, page, e, User);
  }

  /** In the lower half of a created space the flags alone decide on writing and execution. */
  lemma LowerMapRights(s: State, l: Ledger, h: Handle, v: bv64, p: bv64, flags: MapFlags)
    requires Inv(s, l) && LiveSlot(s.slots, h) && PageOf(v)[0] < KERNEL_PML4_START && Map4K(s, h, v, p, flags).1.Ok?
    ensures var m', r, page := Map4K(s, h, v, p, flags).0.ram.mem, RootOf(s, h), PageOf(v);
            && (Permits(m', r, page, Write) <==> flags & 0x2 != 0)
            && (Permits(m', r, page, Exec) <==> flags & 0x4 != 0 || !s.nxe)
  {
    LowerHalfAllowed(s, l, Map(h, v, p, flags));
    MappedRights(s, l, h, v, p, flags);
    LowerLinksGrant(s, l, h, PageOf(v));
  }

  lemma LowerLinksGrant(s: State, l: Ledger, h: Handle, page: Page)
    requires Inv(s, l) && LiveSlot(s.slots, h) && page[0] < KERNEL_PML4_START
    ensures ExistingLinksGrant(s.ram.mem, RootOf(s, h), page, Write) && ExistingLinksGrant(s.ram.mem, RootOf(s, h), page, Exec)
  {
    LiveHandleRoot(s, l, h);
    forall d | 0 <= d < 3 && HasLink(s.ram.mem, RootOf(s, h), page, d)
      ensures GrantingLink(s.ram.mem, RootOf(s, h), page, Write, d) && GrantingLink(s.ram.mem, RootOf(s, h), page, Exec, d)
    {
      OpenLink(s.ram.mem, l.own, RootOf(s, h), page, d);
    }
  }

  /** The same for a successful protect. */
  lemma ProtectedRights(s: State, l: Ledger, h: Handle, v: bv64, flags: MapFlags)
    requires Inv(s, l) && Allowed(s, Protect(h, v, flags)) && Protect4K(s, h, v, flags).1.Ok?
    ensures var m, m', r, page := s.ram.mem, Protect4K(s, h, v, flags).0.ram.mem, RootOf(s, h), PageOf(v);
            && (Permits(m', r, page, Write) <==> flags & 0x2 != 0 && ExistingLinksGrant(m, r, page, Write))
            && (Permits(m', r, page, Exec) <==> (flags & 0x4 != 0 || !s.nxe) && ExistingLinksGrant(m, r, page, Exec))
            && (Permits(m', r, page, User) <==> flags & 0x8 != 0 && ExistingLinksGrant(m, r, page, User))
  {
    var m, g, r, page, attr := s.ram.mem, l.own, RootOf(s, h), PageOf(v), FlagsToAttr(flags, s.nxe);
    LiveHandleRoot(s, l, h);
    FlagsByBit(flags, s.nxe);
    ProtectPermits(m, g, r, page, attr, Write);
    ProtectPermits(m, g, r, page, attr, Exec);
    ProtectPermits(m, g, r, page, attr, User);
  }
}
