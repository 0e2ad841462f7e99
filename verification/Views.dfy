/**
 Address spaces as finite maps from 4K pages to entries, and the page-table
 operations as updates of those maps.
 */
module Views {
  import opened Wrappers
  import opened Pte
  import opened PageTree
  import opened TableEdits
  import opened PageMapper

  /** An address space as its clients see it: the 4K pages it binds. */
  ghost function View(m: Memory, r: PhysAddr): imap<Page, Entry> {
    imap page: Page | Leaf(m, r, page).Some? :: Leaf(m, r, page).value
  }

  /** Both roots reach the same last-level table for this page. */
  predicate SharesTable(m: Memory, r: PhysAddr, r': PhysAddr, page: Page) {
    At(m, r', page, 3).Some? && At(m, r', page, 3) == At(m, r, page, 3)
  }

  /** In the lower half nothing is shared. */
  lemma LowerHalfPrivate(m: Memory, g: Ownership, r: PhysAddr, r': PhysAddr, page: Page)
    requires Tree(m, g) && Live(g, r) && Live(g, r') && page[0] < KERNEL_PML4_START
    ensures SharesTable(m, r, r', page) ==> r == r'
  {
    if SharesTable(m, r, r', page) {
      OnePath(m, g, r', page, 3, r, page, 3);
    }
  }

  /** The lower half of a space this code created has no large pages. */
  lemma {:induction false} LowerHalfSmall(m: Memory, g: Ownership, r: PhysAddr, page: Page)
    requires Tree(m, g) && r in g.spaces && page[0] < KERNEL_PML4_START
    ensures SmallPath(m, r, page)
  {
    assert Live(g, r);
    forall d | 0 <= d < 3 && At(m, r, page, d).Some?
      ensures !LargePage(Rd(m, At(m, r, page, d).value, page[d]))
    {
      WalkOwned(m, g, r, page, d);
      assert PlainEntry(m, g, At(m, r, page, d).value, page[d]);
    }
  }

  /** On a path without large pages the code's walk finds exactly the bound pages. */
  lemma WalkIsLeaf(m: Memory, r: PhysAddr, page: Page)
    requires SmallPath(m, r, page)
    ensures Walk(m, r, page).Some? <==> page in View(m, r)
    ensures Walk(m, r, page).Some? ==>
              Walk(m, r, page) == At(m, r, page, 3) && View(m, r)[page] == Rd(m, Walk(m, r, page).value, page[3])
  {
    assert At(m, r, page, 0) == Some(r);
    var e1 := Rd(m, r, page[0]);
    assert !LargePage(e1);
    if e1.attr.present {
      assert At(m, r, page, 1) == Some(e1.target);
      var e2 := Rd(m, e1.target, page[1]);
      assert !LargePage(e2);
      if e2.attr.present {
        assert At(m, r, page, 2) == Some(e2.target);
        assert !LargePage(Rd(m, e2.target, page[2]));
      }
    }
  }

  lemma LeafWriteOnView(m: Memory, g: Ownership, r: PhysAddr, page: Page, e: Entry, r': PhysAddr)
    requires Tree(m, g) && Live(g, r) && At(m, r, page, 3).Some? && Live(g, r')
    ensures View(Wr(m, At(m, r, page, 3).value, page[3], e), r') ==
            if !SharesTable(m, r, r', page) then View(m, r')
            else if e.attr.present then View(m, r')[page := e]
            else View(m, r') - {page}
  {
    var m' := Wr(m, At(m, r, page, 3).value, page[3], e);
    forall q: Page ensures Leaf(m', r', q) == Rebound(m, r, page, e, r', q) {
      LeafWriteOnLeaf(m, g, r, page, e, r', q);
    }
    if !SharesTable(m, r, r', page) {
      SameView(m, m', r');
    } else if e.attr.present {
      ViewWith(m, m', r', page, e);
    } else {
      ViewWithout(m, m', r', page);
    }
  }

  lemma SameView(m: Memory, m': Memory, r: PhysAddr)
    requires forall q: Page :: Leaf(m', r, q) == Leaf(m, r, q)
    ensures View(m', r) == View(m, r)
  {
  }

  lemma ViewWith(m: Memory, m': Memory, r: PhysAddr, page: Page, e: Entry)
    requires forall q: Page :: Leaf(m', r, q) == if q == page then Some(e) else Leaf(m, r, q)
    ensures View(m', r) == View(m, r)[page := e]
  {
  }

  lemma ViewWithout(m: Memory, m': Memory, r: PhysAddr, page: Page)
    requires forall q: Page :: Leaf(m', r, q) == if q == page then None else Leaf(m, r, q)
    ensures View(m', r) == View(m, r) - {page}
  {
  }

  function Rebound(m: Memory, r: PhysAddr, page: Page, e: Entry, r': PhysAddr, q: Page): Option<Entry> {
    if q != page || !SharesTable(m, r, r', page) then Leaf(m, r', q)
    else if e.attr.present then Some(e)
    else None
  }

  lemma LeafWriteOnLeaf(m: Memory, g: Ownership, r: PhysAddr, page: Page, e: Entry, r': PhysAddr, q: Page)
    requires Tree(m, g) && Live(g, r) && At(m, r, page, 3).Some? && Live(g, r')
    ensures Leaf(Wr(m, At(m, r, page, 3).value, page[3], e), r', q) == Rebound(m, r, page, e, r', q)
  {
    var pt := At(m, r, page, 3).value;
    WalkOwned(m, g, r, page, 3);
    LeafWriteEffect(m, g, pt, page[3], e, r', q);
    if At(m, r', q, 3) == Some(pt) && q[3] == page[3] {
      OnePath(m, g, r', q, 3, r, page, 3);
      assert q == q[..3] + [q[3]] && page == page[..3] + [page[3]];
    }
  }

  // ---- The operations -------------------------------------------------------

  ghost predicate EditedIn(m: Memory, m': Memory, g: Ownership, r: PhysAddr, page: Page, e: Option<Entry>, r': PhysAddr) {
    Live(g, r') ==>
      View(m', r') ==
      if !SharesTable(m', r, r', page) then View(m, r')
      else if e.Some? then View(m, r')[page := e.value]
      else View(m, r') - {page}
  }

  /**
   From `m` to `m'` the binding of `page` became `e` in `r` and in every space that
   shares its last-level table, which is there, with `r`; no other binding of any space
   changed.
   */
  ghost predicate Edited(m: Memory, m': Memory, g: Ownership, r: PhysAddr, page: Page, e: Option<Entry>) {
    At(m', r, page, 3).Some? && forall r' :: EditedIn(m, m', g, r, page, e, r')
  }

  /** Adding a binding overrides none: no space that shares the table had the page bound. */
  ghost predicate UnboundIn(m: Memory, m': Memory, g: Ownership, r: PhysAddr, page: Page, r': PhysAddr) {
    Live(g, r') && SharesTable(m', r, r', page) ==> page !in View(m, r')
  }

  ghost predicate Unbound(m: Memory, m': Memory, g: Ownership, r: PhysAddr, page: Page) {
    forall r' :: UnboundIn(m, m', g, r, page, r')
  }

  ghost predicate SameViewIn(m: Memory, m': Memory, g: Ownership, r': PhysAddr) {
    Live(g, r') ==> View(m', r') == View(m, r')
  }

  ghost predicate SameViews(m: Memory, m': Memory, g: Ownership) {
    forall r' :: SameViewIn(m, m', g, r')
  }

  lemma LeavesToViews(m: Memory, m': Memory, g: Ownership)
    requires KeepsLeaves(m, m', g)
    ensures SameViews(m, m', g)
  {
    forall r' ensures SameViewIn(m, m', g, r') {
      if Live(g, r') {
        forall page: Page ensures Leaf(m', r', page) == Leaf(m, r', page) {
          assert SameLeaf(m, m', g, r', page);
        }
        SameView(m, m', r');
      }
    }
  }

  /** Setting a last-level word, seen on the maps of all spaces. */
  lemma LeafWriteEdits(m: Memory, g: Ownership, r: PhysAddr, page: Page, e: Entry)
    requires Tree(m, g) && Live(g, r) && At(m, r, page, 3).Some?
    ensures var m' := Wr(m, At(m, r, page, 3).value, page[3], e);
            Tree(m', g) && Keeps(m, m', g)
            && Edited(m, m', g, r, page, if e.attr.present then Some(e) else None)
  {
    var pt := At(m, r, page, 3).value;
    var m' := Wr(m, pt, page[3], e);
    WalkOwned(m, g, r, page, 3);
    LeafWriteKeepsTree(m, g, pt, page[3], e);
    forall q, p: Path, d: nat ensures SameTable(m, m', g, q, p, d) {
      if Live(g, q) && d <= |p| && d <= 3 {
        LeafWriteAt(m, g, pt, page[3], e, q, p, d);
      }
    }
    forall f, j ensures SameEntry(m, m', g, f, j) { }
    forall q, p: Page ensures StaysSmall(m, m', g, q, p) {
      if Live(g, q) && SmallPath(m, q, p) {
        LeafWriteKeepsSmallPath(m, g, pt, page[3], e, q, p);
      }
    }
    LeafWriteAt(m, g, pt, page[3], e, r, page, 3);
    var e' := if e.attr.present then Some(e) else None;
    forall r' ensures EditedIn(m, m', g, r, page, e', r') {
      if Live(g, r') {
        LeafWriteAt(m, g, pt, page[3], e, r', page, 3);
        LeafWriteOnView(m, g, r, page, e, r');
      }
    }
  }

  /** Reads of a lower-half edit by other spaces find nothing changed. */
  lemma IsolatedView(m: Memory, m': Memory, g: Ownership, g': Ownership, r: PhysAddr, page: Page, e: Option<Entry>, r': PhysAddr)
    requires Tree(m', g') && Edited(m, m', g, r, page, e) && Live(g, r) && Live(g, r') && r' != r
    requires g'.kernel == g.kernel && g'.spaces == g.spaces
    requires page[0] < KERNEL_PML4_START
    ensures View(m', r') == View(m, r')
  {
    assert EditedIn(m, m', g, r, page, e, r');
    LowerHalfPrivate(m', g', r, r', page);
  }

  /** The ledger after `map_4k`; the last-level write moves no frame. */
  ghost function MapLedger(s: Ram, l: Ledger, r: PhysAddr, page: Page, e: Entry): Ledger {
    EnsurePathLedger(s, l, r, page, e.attr.user)
  }

  ghost predicate SameFrames(l: Ledger, l': Ledger) {
    Includes(l.own, l'.own) && l'.boot == l.boot && l'.all == l.all && l'.dropped == l.dropped
  }

  /**
   `map_4k` as an update of maps.  It refuses a bound page and then leaves the whole
   state alone; it runs out of memory only when every frame is a table or lost, and
   then no space has changed its meaning; otherwise it adds exactly one binding.
   */
  lemma MapRefinesUpdate(s: Ram, l: Ledger, r: PhysAddr, page: Page, e: Entry)
    requires Balanced(s, l) && Live(l.own, r) && SmallPath(s.mem, r, page) && e.attr.present
    ensures var (s', res) := MapPage(s, r, page, e);
            var l' := MapLedger(s, l, r, page, e);
            && Balanced(s', l') && SameFrames(l, l')
            && Keeps(s.mem, s'.mem, l.own)
            && (res == Err(AlreadyMapped) <==> page in View(s.mem, r))
            && (res == Err(AlreadyMapped) ==> s' == s)
            && (res.Err? && res.error != AlreadyMapped ==>
                  res.error == OutOfMemory && l'.all == Taken(l') + l'.dropped && SameViews(s.mem, s'.mem, l.own))
            && (res.Ok? ==> Edited(s.mem, s'.mem, l.own, r, page, Some(e)) && Unbound(s.mem, s'.mem, l.own, r, page))
  {
    EnsurePathGrows(s, l, r, page, e.attr.user);
    LeavesToViews(s.mem, EnsurePath(s, r, page, e.attr.user).0.mem, l.own);
    if page in View(s.mem, r) {
      EnsurePathFinds(s, r, page, e.attr.user);
    } else if EnsurePath(s, r, page, e.attr.user).1.Ok? {
      MapWrites(s, l, r, page, e);
    }
  }

  lemma MapWrites(s: Ram, l: Ledger, r: PhysAddr, page: Page, e: Entry)
    requires Balanced(s, l) && Live(l.own, r) && SmallPath(s.mem, r, page) && e.attr.present
    requires page !in View(s.mem, r) && EnsurePath(s, r, page, e.attr.user).1.Ok?
    ensures var (s', res) := MapPage(s, r, page, e);
            && res.Ok? && Balanced(s', MapLedger(s, l, r, page, e))
            && Keeps(s.mem, s'.mem, l.own)
            && Edited(s.mem, s'.mem, l.own, r, page, Some(e)) && Unbound(s.mem, s'.mem, l.own, r, page)
  {
    var (s1, pt) := EnsurePath(s, r, page, e.attr.user);
    var l1 := MapLedger(s, l, r, page, e);
    EnsurePathGrows(s, l, r, page, e.attr.user);
    LeavesToViews(s.mem, s1.mem, l.own);
    assert Live(l1.own, r) && SameViewIn(s.mem, s1.mem, l.own, r);
    assert !Rd(s1.mem, pt.value, page[3]).attr.present by {
      assert page !in View(s1.mem, r);
    }
    LeafWriteEdits(s1.mem, l1.own, r, page, e);
    var m2 := Wr(s1.mem, pt.value, page[3], e);
    assert SameTable(s1.mem, m2, l1.own, r, page, 3);
    EditAfterGrowth(s, l, s1, l1, m2, r, page, e);
    WalkOwned(s1.mem, l1.own, r, page, 3);
    forall r' ensures UnboundIn(s.mem, m2, l.own, r, page, r') {
      assert SameViewIn(s.mem, s1.mem, l.own, r');
      if Live(l.own, r') {
        LeafWriteAt(s1.mem, l1.own, pt.value, page[3], e, r', page, 3);
      }
    }
  }

  lemma EditAfterGrowth(s: Ram, l: Ledger, s1: Ram, l1: Ledger, m2: Memory, r: PhysAddr, page: Page, e: Entry)
    requires Grows(s, l, s1, l1) && Tree(m2, l1.own)
    requires Keeps(s1.mem, m2, l1.own)
    requires Edited(s1.mem, m2, l1.own, r, page, Some(e))
    ensures Balanced(Ram(m2, s1.supply), l1)
    ensures Keeps(s.mem, m2, l.own)
    ensures Edited(s.mem, m2, l.own, r, page, Some(e))
  {
    KeepsTransitive(s.mem, l.own, s1.mem, l1.own, m2);
    LeavesToViews(s.mem, s1.mem, l.own);
    forall r' ensures EditedIn(s.mem, m2, l.own, r, page, Some(e), r') {
      assert EditedIn(s1.mem, m2, l1.own, r, page, Some(e), r') && SameViewIn(s.mem, s1.mem, l.own, r');
    }
  }

  /** `unmap_4k` as an update of maps: it succeeds exactly on bound pages and removes exactly one binding. */
  lemma UnmapRefinesUpdate(m: Memory, g: Ownership, r: PhysAddr, page: Page)
    requires Tree(m, g) && Live(g, r) && SmallPath(m, r, page)
    ensures var (m', res) := UnmapPage(m, r, page);
            && Tree(m', g) && Keeps(m, m', g)
            && (res.Ok? <==> page in View(m, r))
            && (res.Err? ==> res.error == NotMapped && m' == m)
            && (res.Ok? ==> Edited(m, m', g, r, page, None))
  {
    WalkIsLeaf(m, r, page);
    if Walk(m, r, page).Some? {
      LeafWriteEdits(m, g, r, page, ZERO_ENTRY);
    }
  }

  /** `protect_4k` as an update of maps: the frame of a bound page stays, its attributes are replaced. */
  lemma ProtectRefinesUpdate(m: Memory, g: Ownership, r: PhysAddr, page: Page, attr: Attr)
    requires Tree(m, g) && Live(g, r) && SmallPath(m, r, page) && attr.present
    ensures var (m', res) := ProtectPage(m, r, page, attr);
            && Tree(m', g) && Keeps(m, m', g)
            && (res.Ok? <==> page in View(m, r))
            && (res.Err? ==> res.error == NotMapped && m' == m)
            && (res.Ok? ==> Edited(m, m', g, r, page, Some(Entry(View(m, r)[page].target, attr))))
  {
    WalkIsLeaf(m, r, page);
    if Walk(m, r, page).Some? {
      LeafWriteEdits(m, g, r, page, Entry(View(m, r)[page].target, attr));
    }
  }
}
