/**
 The two writes the system makes to a tree: hanging a fresh, zeroed table under an
 absent entry, and setting one word of a last-level table.
 */
module TableEdits {
  import opened Wrappers
  import opened Pte
  import opened PageTree

  function TableEntry(frame: PhysAddr, user: bool): Entry {
    Entry(PhysAddr(frame.raw & ADDR_MASK), TableAttr(user))
  }

  /** Zero a frame, then link it. */
  function LinkTable(m: Memory, parent: PhysAddr, i: Index, frame: PhysAddr, user: bool): Memory {
    Wr(Zero(m, frame), parent, i, TableEntry(frame, user))
  }

  function Adopt(g: Ownership, parent: PhysAddr, i: Index, frame: PhysAddr): Ownership
    requires parent in g.nodes
  {
    g.(nodes := g.nodes[frame := Node(g.nodes[parent].root, parent, g.nodes[parent].path + [i])])
  }

  /** What linking needs: an owned table above the last level, an absent entry, an unowned frame. */
  ghost predicate CanLink(m: Memory, g: Ownership, parent: PhysAddr, i: Index, frame: PhysAddr) {
    && Tree(m, g)
    && parent in g.nodes && |g.nodes[parent].path| < 3
    && !Rd(m, parent, i).attr.present
    && frame !in g.nodes && IsFrame(frame.raw)
  }

  lemma LinkReads(m: Memory, g: Ownership, parent: PhysAddr, i: Index, frame: PhysAddr, user: bool)
    requires CanLink(m, g, parent, i, frame)
    ensures var m' := LinkTable(m, parent, i, frame, user);
            && Rd(m', parent, i) == Entry(frame, TableAttr(user))
            && (forall j :: Rd(m', frame, j) == ZERO_ENTRY)
            && (forall f, j :: f in g.nodes && (f != parent || j != i) ==> Rd(m', f, j) == Rd(m, f, j))
  {
  }

  lemma LinkKeepsTree(m: Memory, g: Ownership, parent: PhysAddr, i: Index, frame: PhysAddr, user: bool)
    requires CanLink(m, g, parent, i, frame)
    ensures Tree(LinkTable(m, parent, i, frame, user), Adopt(g, parent, i, frame))
  {
    var m', g' := LinkTable(m, parent, i, frame, user), Adopt(g, parent, i, frame);
    forall r | Live(g', r) ensures r in g'.nodes && g'.nodes[r] == Node(r, r, []) {
      assert Live(g, r);
    }
    forall f | f in g'.nodes ensures Placed(m', g', f) {
      LinkPlaced(m, g, parent, i, frame, user, f);
    }
    forall f, j | f in g'.nodes ensures LinkOwned(m', g', f, j) {
      LinkLinkOwned(m, g, parent, i, frame, user, f, j);
    }
    forall f, j | f in g'.nodes ensures PlainEntry(m', g', f, j) {
      LinkPlainEntry(m, g, parent, i, frame, user, f, j);
    }
  }

  lemma LinkPlaced(m: Memory, g: Ownership, parent: PhysAddr, i: Index, frame: PhysAddr, user: bool, f: PhysAddr)
    requires CanLink(m, g, parent, i, frame) && (f in g.nodes || f == frame)
    ensures Placed(LinkTable(m, parent, i, frame, user), Adopt(g, parent, i, frame), f)
  {
    LinkReads(m, g, parent, i, frame, user);
    assert Placed(m, g, parent);
    if f != frame {
      assert Placed(m, g, f);
    }
  }

  lemma LinkLinkOwned(m: Memory, g: Ownership, parent: PhysAddr, i: Index, frame: PhysAddr, user: bool,
                      f: PhysAddr, j: Index)
    requires CanLink(m, g, parent, i, frame) && (f in g.nodes || f == frame)
    ensures LinkOwned(LinkTable(m, parent, i, frame, user), Adopt(g, parent, i, frame), f, j)
  {
    LinkReads(m, g, parent, i, frame, user);
    assert Live(g, g.kernel);
    if f != frame && !(f == parent && j == i) {
      assert LinkOwned(m, g, f, j);
    }
  }

  lemma LinkPlainEntry(m: Memory, g: Ownership, parent: PhysAddr, i: Index, frame: PhysAddr, user: bool,
                       f: PhysAddr, j: Index)
    requires CanLink(m, g, parent, i, frame) && (f in g.nodes || f == frame)
    ensures PlainEntry(LinkTable(m, parent, i, frame, user), Adopt(g, parent, i, frame), f, j)
  {
    LinkReads(m, g, parent, i, frame, user);
    if f != frame {
      assert PlainEntry(m, g, f, j);
    }
  }

  /** A walk that went through the absent entry stopped there; every other walk is blind to the new table. */
  lemma {:induction false} LinkAt(m: Memory, g: Ownership, parent: PhysAddr, i: Index, frame: PhysAddr, user: bool,
                                  r: PhysAddr, p: Path, d: nat)
    requires CanLink(m, g, parent, i, frame) && Live(g, r) && d <= |p| && d <= 3
    ensures var a, a' := At(m, r, p, d), At(LinkTable(m, parent, i, frame, user), r, p, d);
            || a' == a
            || (a == None && a' == Some(frame) && d > 0 && At(m, r, p, d - 1) == Some(parent) && p[d - 1] == i)
  {
    LinkReads(m, g, parent, i, frame, user);
    if d > 0 {
      LinkAt(m, g, parent, i, frame, user, r, p, d - 1);
      if At(m, r, p, d - 1).Some? {
        WalkOwned(m, g, r, p, d - 1);
      }
    }
  }

  /** Linking a fresh table changes no binding of any address space. */
  lemma LinkKeepsLeaf(m: Memory, g: Ownership, parent: PhysAddr, i: Index, frame: PhysAddr, user: bool,
                      r: PhysAddr, page: Page)
    requires CanLink(m, g, parent, i, frame) && Live(g, r)
    ensures Leaf(LinkTable(m, parent, i, frame, user), r, page) == Leaf(m, r, page)
  {
    LinkReads(m, g, parent, i, frame, user);
    LinkAt(m, g, parent, i, frame, user, r, page, 3);
    if At(m, r, page, 3).Some? {
      WalkOwned(m, g, r, page, 3);
      assert |g.nodes[At(m, r, page, 3).value].path| == 3;
    }
  }

  /** Linking a fresh table puts no large page on any path. */
  lemma LinkKeepsSmallPath(m: Memory, g: Ownership, parent: PhysAddr, i: Index, frame: PhysAddr, user: bool,
                           r: PhysAddr, page: Page)
    requires CanLink(m, g, parent, i, frame) && Live(g, r) && SmallPath(m, r, page)
    ensures SmallPath(LinkTable(m, parent, i, frame, user), r, page)
  {
    var m' := LinkTable(m, parent, i, frame, user);
    LinkReads(m, g, parent, i, frame, user);
    forall k | 0 <= k < 3 && At(m', r, page, k).Some?
      ensures !LargePage(Rd(m', At(m', r, page, k).value, page[k]))
    {
      LinkAt(m, g, parent, i, frame, user, r, page, k);
      if At(m, r, page, k).Some? {
        WalkOwned(m, g, r, page, k);
      }
    }
  }

  // ---- Last-level writes ----------------------------------------------------

  lemma LeafWriteKeepsTree(m: Memory, g: Ownership, pt: PhysAddr, i: Index, e: Entry)
    requires Tree(m, g) && pt in g.nodes && |g.nodes[pt].path| == 3
    ensures Tree(Wr(m, pt, i, e), g)
  {
    var m' := Wr(m, pt, i, e);
    forall f | f in g.nodes ensures Placed(m', g, f) {
      assert Placed(m, g, f);
    }
    forall f, j | f in g.nodes ensures LinkOwned(m', g, f, j) {
      LeafWriteLinkOwned(m, g, pt, i, e, f, j);
    }
    forall f, j | f in g.nodes ensures PlainEntry(m', g, f, j) {
      assert PlainEntry(m, g, f, j);
    }
  }

  lemma LeafWriteLinkOwned(m: Memory, g: Ownership, pt: PhysAddr, i: Index, e: Entry, f: PhysAddr, j: Index)
    requires Tree(m, g) && pt in g.nodes && |g.nodes[pt].path| == 3 && f in g.nodes
    ensures LinkOwned(Wr(m, pt, i, e), g, f, j)
  {
    assert Live(g, g.kernel);
    assert LinkOwned(m, g, f, j);
  }

  lemma {:induction false} LeafWriteAt(m: Memory, g: Ownership, pt: PhysAddr, i: Index, e: Entry, r: PhysAddr, p: Path, d: nat)
    requires Tree(m, g) && pt in g.nodes && |g.nodes[pt].path| == 3
    requires Live(g, r) && d <= |p| && d <= 3
    ensures At(Wr(m, pt, i, e), r, p, d) == At(m, r, p, d)
  {
    if d > 0 {
      LeafWriteAt(m, g, pt, i, e, r, p, d - 1);
      if At(m, r, p, d - 1).Some? {
        WalkOwned(m, g, r, p, d - 1);
      }
    }
  }

  lemma LeafWriteKeepsSmallPath(m: Memory, g: Ownership, pt: PhysAddr, i: Index, e: Entry, r: PhysAddr, page: Page)
    requires Tree(m, g) && pt in g.nodes && |g.nodes[pt].path| == 3 && Live(g, r) && SmallPath(m, r, page)
    ensures SmallPath(Wr(m, pt, i, e), r, page)
  {
    forall k | 0 <= k < 3 && At(m, r, page, k).Some?
      ensures At(Wr(m, pt, i, e), r, page, k) == At(m, r, page, k) && At(m, r, page, k).value != pt
    {
      LeafWriteAt(m, g, pt, i, e, r, page, k);
      WalkOwned(m, g, r, page, k);
    }
    forall k | 0 <= k < 3 ensures At(Wr(m, pt, i, e), r, page, k) == At(m, r, page, k) {
      LeafWriteAt(m, g, pt, i, e, r, page, k);
    }
  }

  /** Setting a last-level word rebinds the one page it stands for, in the spaces that reach the table, and nothing else. */
  lemma LeafWriteEffect(m: Memory, g: Ownership, pt: PhysAddr, i: Index, e: Entry, r: PhysAddr, page: Page)
    requires Tree(m, g) && pt in g.nodes && |g.nodes[pt].path| == 3 && Live(g, r)
    ensures Leaf(Wr(m, pt, i, e), r, page) ==
            if At(m, r, page, 3) == Some(pt) && page[3] == i then (if e.attr.present then Some(e) else None)
            else Leaf(m, r, page)
  {
    LeafWriteAt(m, g, pt, i, e, r, page, 3);
  }
}
