/**
 The root of a new address space: a zeroed frame with the upper half of the kernel
 root copied into it.
 */
module Creation {
  import opened Wrappers
  import opened Pte
  import opened PageTree
  import opened PageMapper

  /** The words of `src` from index 256 on, as words of `dst`. */
  function UpperHalfFor(m: Memory, src: PhysAddr, dst: PhysAddr): Memory {
    map w | w in m && w.0 == src && w.1 >= KERNEL_PML4_START :: (dst, w.1) := m[w]
  }

  /** Copy words 256 to 511 of `src` over those of `dst`. */
  function CopyUpper(m: Memory, src: PhysAddr, dst: PhysAddr): Memory {
    (map w | w in m && !(w.0 == dst && w.1 >= KERNEL_PML4_START) :: m[w]) + UpperHalfFor(m, src, dst)
  }

  /** Zero a frame, then copy the upper half of the kernel root into it. */
  function NewRoot(m: Memory, kernel: PhysAddr, frame: PhysAddr): Memory {
    CopyUpper(Zero(m, frame), kernel, frame)
  }

  lemma UpperHalfReads(m: Memory, src: PhysAddr, dst: PhysAddr)
    ensures var up := UpperHalfFor(m, src, dst);
            forall f, i :: ((f, i) in up <==> f == dst && (src, i) in m && i >= KERNEL_PML4_START)
                           && ((f, i) in up ==> up[(f, i)] == m[(src, i)])
  {
  }

  lemma NewRootReads(m: Memory, kernel: PhysAddr, frame: PhysAddr, f: PhysAddr, j: Index)
    requires kernel != frame
    ensures Rd(NewRoot(m, kernel, frame), f, j) ==
            if f != frame then Rd(m, f, j)
            else if j >= KERNEL_PML4_START then Rd(m, kernel, j)
            else ZERO_ENTRY
  {
    UpperHalfReads(Zero(m, frame), kernel, frame);
  }

  function Enrol(g: Ownership, frame: PhysAddr): Ownership {
    g.(spaces := g.spaces + {frame}, nodes := g.nodes[frame := Node(frame, frame, [])])
  }

  lemma NewRootLinkOwned(m: Memory, g: Ownership, frame: PhysAddr, f: PhysAddr, j: Index)
    requires Tree(m, g) && frame !in g.nodes && (f in g.nodes || f == frame)
    ensures LinkOwned(NewRoot(m, g.kernel, frame), Enrol(g, frame), f, j)
  {
    assert Live(g, g.kernel);
    NewRootReads(m, g.kernel, frame, f, j);
    NewRootReads(m, g.kernel, frame, g.kernel, j);
    if f == frame {
      assert LinkOwned(m, g, g.kernel, j);
      assert [] + [j] == [j];
    } else {
      assert LinkOwned(m, g, f, j);
    }
  }

  lemma NewRootPlaced(m: Memory, g: Ownership, frame: PhysAddr, f: PhysAddr)
    requires Tree(m, g) && frame !in g.nodes && (f in g.nodes || f == frame)
    ensures Placed(NewRoot(m, g.kernel, frame), Enrol(g, frame), f)
  {
    assert Live(g, g.kernel);
    if f != frame {
      assert Placed(m, g, f);
      var n := g.nodes[f];
      if n.path != [] {
        NewRootReads(m, g.kernel, frame, n.parent, n.path[|n.path| - 1]);
      }
    }
  }

  /** A new space joins the forest without disturbing it. */
  lemma NewRootKeepsTree(m: Memory, g: Ownership, frame: PhysAddr)
    requires Tree(m, g) && frame !in g.nodes
    ensures Tree(NewRoot(m, g.kernel, frame), Enrol(g, frame))
  {
    var m', g' := NewRoot(m, g.kernel, frame), Enrol(g, frame);
    assert Live(g, g.kernel);
    forall r | Live(g', r) ensures r in g'.nodes && g'.nodes[r] == Node(r, r, []) {
      if r != frame { assert Live(g, r); }
    }
    forall f | f in g'.nodes ensures Placed(m', g', f) {
      NewRootPlaced(m, g, frame, f);
    }
    forall f, j | f in g'.nodes ensures LinkOwned(m', g', f, j) {
      NewRootLinkOwned(m, g, frame, f, j);
    }
    forall f, j | f in g'.nodes ensures PlainEntry(m', g', f, j) {
      NewRootReads(m, g.kernel, frame, f, j);
      if f != frame { assert PlainEntry(m, g, f, j); }
    }
  }

  /** The words of existing tables stay. */
  lemma OwnedReads(m: Memory, g: Ownership, frame: PhysAddr, f: PhysAddr, j: Index)
    requires Tree(m, g) && frame !in g.nodes && f in g.nodes
    ensures Rd(NewRoot(m, g.kernel, frame), f, j) == Rd(m, f, j)
  {
    assert Live(g, g.kernel);
    NewRootReads(m, g.kernel, frame, f, j);
  }

  /** With the words of all tables the same every walk is the same. */
  lemma {:induction false} SameWordsSameWalk(m: Memory, m': Memory, g: Ownership, r: PhysAddr, p: Path, d: nat)
    requires Tree(m, g) && Live(g, r) && d <= |p| && d <= 3
    requires forall f, j :: f in g.nodes ==> Rd(m', f, j) == Rd(m, f, j)
    ensures At(m', r, p, d) == At(m, r, p, d)
  {
    if d > 0 {
      SameWordsSameWalk(m, m', g, r, p, d - 1);
      if At(m, r, p, d - 1).Some? {
        WalkOwned(m, g, r, p, d - 1);
      }
    }
  }

  /** A space created earlier walks as before. */
  lemma NewRootAt(m: Memory, g: Ownership, frame: PhysAddr, r: PhysAddr, p: Path, d: nat)
    requires Tree(m, g) && frame !in g.nodes && Live(g, r) && d <= |p| && d <= 3
    ensures At(NewRoot(m, g.kernel, frame), r, p, d) == At(m, r, p, d)
  {
    var m' := NewRoot(m, g.kernel, frame);
    forall f, j | f in g.nodes ensures Rd(m', f, j) == Rd(m, f, j) {
      OwnedReads(m, g, frame, f, j);
    }
    SameWordsSameWalk(m, m', g, r, p, d);
  }

  lemma NewRootLeaf(m: Memory, g: Ownership, frame: PhysAddr, r: PhysAddr, page: Page)
    requires Tree(m, g) && frame !in g.nodes && Live(g, r)
    ensures Leaf(NewRoot(m, g.kernel, frame), r, page) == Leaf(m, r, page)
  {
    assert Live(g, g.kernel);
    NewRootAt(m, g, frame, r, page, 3);
    if At(m, r, page, 3).Some? {
      WalkOwned(m, g, r, page, 3);
      NewRootReads(m, g.kernel, frame, At(m, r, page, 3).value, page[3]);
    }
  }

  lemma NewRootKeepsMeaning(m: Memory, g: Ownership, frame: PhysAddr)
    requires Tree(m, g) && frame !in g.nodes
    ensures var m' := NewRoot(m, g.kernel, frame);
            Keeps(m, m', g) && KeepsLeaves(m, m', g)
  {
    var m' := NewRoot(m, g.kernel, frame);
    assert Live(g, g.kernel);
    forall r, p: Path, d: nat ensures SameTable(m, m', g, r, p, d) {
      if Live(g, r) && d <= |p| && d <= 3 {
        NewRootAt(m, g, frame, r, p, d);
      }
    }
    forall r, page: Page ensures SameLeaf(m, m', g, r, page) {
      if Live(g, r) {
        NewRootLeaf(m, g, frame, r, page);
      }
    }
    forall f, j ensures SameEntry(m, m', g, f, j) {
      NewRootReads(m, g.kernel, frame, f, j);
    }
    forall r, page: Page ensures StaysSmall(m, m', g, r, page) {
      if Live(g, r) && SmallPath(m, r, page) {
        NewRootSmallPath(m, g, frame, r, page);
      }
    }
  }

  lemma NewRootSmallPath(m: Memory, g: Ownership, frame: PhysAddr, r: PhysAddr, page: Page)
    requires Tree(m, g) && frame !in g.nodes && Live(g, r) && SmallPath(m, r, page)
    ensures SmallPath(NewRoot(m, g.kernel, frame), r, page)
  {
    assert Live(g, g.kernel);
    forall d | 0 <= d < 3
      ensures At(NewRoot(m, g.kernel, frame), r, page, d) == At(m, r, page, d)
      ensures At(m, r, page, d).Some? ==>
                Rd(NewRoot(m, g.kernel, frame), At(m, r, page, d).value, page[d]) == Rd(m, At(m, r, page, d).value, page[d])
    {
      NewRootAt(m, g, frame, r, page, d);
      if At(m, r, page, d).Some? {
        WalkOwned(m, g, r, page, d);
        NewRootReads(m, g.kernel, frame, At(m, r, page, d).value, page[d]);
      }
    }
  }

  /** Two roots with the same entry, or links to the same table, walk alike below it. */
  lemma {:induction false} SameEntrySameWalk(m: Memory, r: PhysAddr, r': PhysAddr, p: Path, d: nat)
    requires 0 < d <= |p| && (Rd(m, r, p[0]) == Rd(m, r', p[0]) || SameLink(Rd(m, r, p[0]), Rd(m, r', p[0])))
    ensures At(m, r, p, d) == At(m, r', p, d)
  {
    if d == 1 {
      assert At(m, r, p, 0) == Some(r) && At(m, r', p, 0) == Some(r');
    } else {
      SameEntrySameWalk(m, r, r', p, d - 1);
    }
  }

  /** A new space binds nothing in the lower half and, in the upper half, exactly what the kernel binds. */
  lemma NewSpaceInherits(m: Memory, g: Ownership, frame: PhysAddr, page: Page)
    requires Tree(m, g) && frame !in g.nodes
    ensures Leaf(NewRoot(m, g.kernel, frame), frame, page) ==
            if page[0] < KERNEL_PML4_START then None else Leaf(m, g.kernel, page)
  {
    var m' := NewRoot(m, g.kernel, frame);
    assert Live(g, g.kernel);
    NewRootReads(m, g.kernel, frame, frame, page[0]);
    NewRootReads(m, g.kernel, frame, g.kernel, page[0]);
    if page[0] < KERNEL_PML4_START {
      assert At(m', frame, page, 0) == Some(frame);
      assert At(m', frame, page, 1) == None;
      assert At(m', frame, page, 2) == None;
    } else {
      SameEntrySameWalk(m', frame, g.kernel, page, 3);
      NewRootLeaf(m, g, frame, g.kernel, page);
    }
  }
}
