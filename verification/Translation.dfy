/**
 What `translate` answers after the other operations.
 */
module Translation {
  import opened Wrappers
  import opened Pte
  import opened PageTree
  import opened PageMapper
  import opened Views
  import opened Slots
  import opened Machine
  import opened Isolation
  import opened PhysicalMemory

  /** Entries decoded from words name page-aligned frames. */
  predicate Masked(m: Memory) {
    forall k | k in m :: IsFrame(m[k].target.raw)
  }

  lemma DecodedIsMasked(w: Words)
    ensures Masked(Decoded(w))
  {
  }

  /** Translation commutes with the page offset. */
  lemma OffsetLaw(s: State, h: Handle, v: bv64, off: bv64)
    requires Masked(s.ram.mem) && IsCanonical(v) && Aligned4K(v) && off < PAGE_SIZE
    ensures Translate(s, h, v + off) ==
            match Translate(s, h, v)
            case Physical(p) => Physical(PhysAddr(p.raw + off))
            case Fault(e) => Fault(e)
  {
    OffsetStaysInPage(v, off);
    AlignedHasNoOffset(v);
    SamePageOffset(s, h, v, v + off, off);
  }

  /** Two addresses of a page translate to the same frame. */
  lemma SamePageOffset(s: State, h: Handle, v: bv64, w: bv64, off: bv64)
    requires Masked(s.ram.mem) && IsCanonical(v) && IsCanonical(w) && PageOf(w) == PageOf(v)
    requires v & 0xfff == 0 && w & 0xfff == off && off < PAGE_SIZE
    ensures Translate(s, h, w) ==
            match Translate(s, h, v)
            case Physical(p) => Physical(PhysAddr(p.raw + off))
            case Fault(e) => Fault(e)
  {
    var page := PageOf(v);
    var t := Walk(s.ram.mem, RootOf(s, h), page);
    if t.Some? {
      var base := Rd(s.ram.mem, t.value, page[3]).target;
      ReadIsFrame(s.ram.mem, t.value, page[3]);
      OffsetApplied(base, w, off);
      OffsetApplied(base, v, 0);
      AddZero(base.raw);
    }
  }

  lemma AddZero(x: bv64)
    ensures x + 0 == x
  {
  }

  lemma ReadIsFrame(m: Memory, f: PhysAddr, i: Index)
    requires Masked(m)
    ensures IsFrame(Rd(m, f, i).target.raw)
  {
  }

  lemma AlignedHasNoOffset(v: bv64)
    requires Aligned4K(v)
    ensures v & 0xfff == 0
  {
  }

  lemma OffsetApplied(base: PhysAddr, w: bv64, off: bv64)
    requires IsFrame(base.raw) && off < PAGE_SIZE && w & 0xfff == off
    ensures WithOffset(base, w) == PhysAddr(base.raw + off)
  {
    OffsetIsAdded(base.raw, off);
  }

  /** After a successful map the page translates to the frame it was given, cut to 52 bits. */
  lemma MappedTranslates(s: State, l: Ledger, h: Handle, v: bv64, p: bv64, flags: MapFlags)
    requires Inv(s, l) && Allowed(s, Map(h, v, p, flags)) && Map4K(s, h, v, p, flags).1.Ok?
    ensures var t := Translate(Map4K(s, h, v, p, flags).0, h, v);
            t == Physical(PhysAddr(p & ADDR_MASK)) && (t == Physical(PhysAddr(p)) <==> p < 0x10_0000_0000_0000)
  {
    LiveHandleRoot(s, l, h);
    MapBinds(s.ram, l, RootOf(s, h), PageOf(v), LeafEntry(p, flags, s.nxe));
    ReadBack(Map4K(s, h, v, p, flags).0, h, v, p);
  }

  /** The page is bound, on a path without large pages, to the given frame. */
  predicate BoundTo(s: State, h: Handle, v: bv64, p: bv64) {
    && IsCanonical(v) && SmallPath(s.ram.mem, RootOf(s, h), PageOf(v))
    && Leaf(s.ram.mem, RootOf(s, h), PageOf(v)).Some?
    && Leaf(s.ram.mem, RootOf(s, h), PageOf(v)).value.target == PhysAddr(p & ADDR_MASK)
  }

  lemma ReadBack(s: State, h: Handle, v: bv64, p: bv64)
    requires BoundTo(s, h, v, p) && Aligned4K(p) && Aligned4K(v)
    ensures Translate(s, h, v) == Physical(PhysAddr(p & ADDR_MASK))
    ensures Translate(s, h, v) == Physical(PhysAddr(p)) <==> p < 0x10_0000_0000_0000
  {
  }

  /** After a successful unmap the page translates to nothing. */
  lemma UnmappedFaults(s: State, l: Ledger, op: Op)
    requires Inv(s, l) && op.Unmap? && Allowed(s, op) && ResultOf(s, op).Ok?
    ensures Translate(Step(s, op), op.h, op.v) == Fault(NotPresent)
  {
    var s', r, page := Step(s, op), RootOf(s, op.h), PageOf(op.v);
    LiveHandleRoot(s, l, op.h);
    EditRefinesUpdate(s, l, op);
    BoundHasTable(s.ram.mem, r, page);
    assert SameTable(s.ram.mem, s'.ram.mem, l.own, r, page, 3);
    assert EditedIn(s.ram.mem, s'.ram.mem, l.own, r, page, None, r);
    assert StaysSmall(s.ram.mem, s'.ram.mem, l.own, r, page);
    TranslateReadsView(s', op.h, op.v);
  }

  lemma BoundHasTable(m: Memory, r: PhysAddr, page: Page)
    requires page in View(m, r)
    ensures At(m, r, page, 3).Some?
  {
  }

  /** Mapping a page and unmapping it again gives back every map of every space. */
  lemma MapUnmapRestores(s: State, l: Ledger, h: Handle, v: bv64, p: bv64, flags: MapFlags, r': PhysAddr)
    requires Inv(s, l) && Allowed(s, Map(h, v, p, flags)) && Map4K(s, h, v, p, flags).1.Ok? && Live(l.own, r')
    ensures var (s2, res) := Unmap4K(Map4K(s, h, v, p, flags).0, h, v);
            res.Ok? && View(s2.ram.mem, r') == View(s.ram.mem, r')
  {
    LiveHandleRoot(s, l, h);
    MapThenUnmapPage(s.ram, l, RootOf(s, h), PageOf(v), LeafEntry(p, flags, s.nxe), r');
  }

  lemma MapThenUnmapPage(s: Ram, l: Ledger, r: PhysAddr, page: Page, e: Entry, r': PhysAddr)
    requires Balanced(s, l) && Live(l.own, r) && Live(l.own, r') && SmallPath(s.mem, r, page)
    requires e.attr.present && MapPage(s, r, page, e).1.Ok?
    ensures var (m2, res) := UnmapPage(MapPage(s, r, page, e).0.mem, r, page);
            res.Ok? && View(m2, r') == View(s.mem, r')
  {
    var m1, g1 := MapPage(s, r, page, e).0.mem, MapLedger(s, l, r, page, e).own;
    MapRefinesUpdate(s, l, r, page, e);
    MapBinds(s, l, r, page, e);
    assert Live(g1, r) && Live(g1, r');
    UnmapRefinesUpdate(m1, g1, r, page);
    Undone(s.mem, m1, UnmapPage(m1, r, page).0, l.own, g1, r, page, e, r');
  }

  lemma Undone(m: Memory, m1: Memory, m2: Memory, g: Ownership, g1: Ownership, r: PhysAddr, page: Page, e: Entry, r': PhysAddr)
    requires Live(g, r') && Live(g1, r') && Live(g1, r) && At(m1, r, page, 3).Some?
    requires Edited(m, m1, g, r, page, Some(e)) && Unbound(m, m1, g, r, page)
    requires Edited(m1, m2, g1, r, page, None) && KeepsTables(m1, m2, g1)
    ensures View(m2, r') == View(m, r')
  {
    assert EditedIn(m, m1, g, r, page, Some(e), r') && UnboundIn(m, m1, g, r, page, r');
    assert EditedIn(m1, m2, g1, r, page, None, r');
    assert SameTable(m1, m2, g1, r, page, 3) && SameTable(m1, m2, g1, r', page, 3);
    if SharesTable(m1, r, r', page) {
      InsertRemove(View(m, r'), page, e);
    } else if SharesTable(m2, r, r', page) {
      assert At(m1, r', page, 3).None?;
      assert page !in View(m1, r');
      InsertRemove(View(m1, r'), page, e);
    }
  }

  lemma InsertRemove(view: imap<Page, Entry>, page: Page, e: Entry)
    requires page !in view
    ensures view[page := e] - {page} == view && view - {page} == view
  {
  }
}
