/**
 Trees of page tables in physical memory, and who owns which table.

 A table frame carries no back pointer, so ownership is a map beside the memory:
 every table frame has one node, naming the root it belongs to, its parent frame
 and the indices that lead to it.  `Tree` says that the map and the memory agree.
 Because the map is a function, a table can be reached along one path only; the
 one exception the system makes, the kernel half shared between roots, shows up as
 nodes that belong to the kernel root.
 */
module PageTree {
  import opened Wrappers
  import opened Pte

  // ---- Memory ---------------------------------------------------------------

  /** Table words by frame and index; an absent word reads as zero. */
  type Memory = map<(PhysAddr, Index), Entry>

  function Rd(m: Memory, f: PhysAddr, i: Index): Entry {
    if (f, i) in m then m[(f, i)] else ZERO_ENTRY
  }

  function Wr(m: Memory, f: PhysAddr, i: Index, e: Entry): Memory {
    m[(f, i) := e]
  }

  function Zero(m: Memory, f: PhysAddr): Memory {
    map k | k in m && k.0 != f :: m[k]
  }

  /** A present entry that names a next-level table rather than a large page. */
  predicate Link(e: Entry) {
    e.attr.present && !e.attr.huge
  }

  predicate LargePage(e: Entry) {
    e.attr.present && e.attr.huge
  }

  // ---- Walks ----------------------------------------------------------------

  /** The table reached from `r` after `d` steps along `p`, through links only. */
  function At(m: Memory, r: PhysAddr, p: Path, d: nat): Option<PhysAddr>
    requires d <= |p|
  {
    if d == 0 then Some(r)
    else
      match At(m, r, p, d - 1)
      case None => None
      case Some(f) =>
        var e := Rd(m, f, p[d - 1]);
        if Link(e) then Some(e.target) else None
  }

  /** The binding of a 4K page in the address space rooted at `r`. */
  function Leaf(m: Memory, r: PhysAddr, page: Page): Option<Entry> {
    match At(m, r, page, 3)
    case None => None
    case Some(t) =>
      var e := Rd(m, t, page[3]);
      if e.attr.present then Some(e) else None
  }

  /** No step of the walk meets a large page. */
  predicate SmallPath(m: Memory, r: PhysAddr, page: Page) {
    forall d | 0 <= d < 3 :: At(m, r, page, d).Some? ==> !LargePage(Rd(m, At(m, r, page, d).value, page[d]))
  }

  // ---- Ownership ------------------------------------------------------------

  datatype Node = Node(root: PhysAddr, parent: PhysAddr, path: Path)

  datatype Ownership = Ownership(kernel: PhysAddr, spaces: set<PhysAddr>, nodes: map<PhysAddr, Node>)

  predicate Live(g: Ownership, r: PhysAddr) {
    r == g.kernel || r in g.spaces
  }

  /** A node is a live root, or its parent links to it. */
  predicate Placed(m: Memory, g: Ownership, f: PhysAddr)
    requires f in g.nodes
  {
    var n := g.nodes[f];
    && Live(g, n.root)
    && |n.path| <= 3
    && (n.path == [] ==> n.root == f && n.parent == f)
    && (n.path != [] ==>
          var i := n.path[|n.path| - 1];
          && n.parent in g.nodes
          && g.nodes[n.parent].root == n.root
          && n.path == g.nodes[n.parent].path + [i]
          && Link(Rd(m, n.parent, i))
          && Rd(m, n.parent, i).target == f)
  }

  /** Two links to the same table, whatever their other bits. */
  predicate SameLink(a: Entry, b: Entry) {
    Link(a) && Link(b) && a.target == b.target
  }

  /** A link at or above index 256 that a root has in common with the kernel root. */
  predicate SharedEntry(m: Memory, g: Ownership, r: PhysAddr, i: Index) {
    i >= KERNEL_PML4_START && SameLink(Rd(m, r, i), Rd(m, g.kernel, i))
  }

  /** The table behind a link is the child its position says, or a shared kernel table. */
  predicate ChildOwned(m: Memory, g: Ownership, f: PhysAddr, i: Index)
    requires f in g.nodes
  {
    var t := Rd(m, f, i).target;
    var n := g.nodes[f];
    && t in g.nodes
    && (|| g.nodes[t] == Node(n.root, f, n.path + [i])
        || (n.path == [] && SharedEntry(m, g, f, i) && g.nodes[t] == Node(g.kernel, g.kernel, [i])))
  }

  /** The entry is no large page, and if it is a link it leaves writing and execution to the entries below. */
  predicate Unrestricted(e: Entry) {
    e.attr.present ==> !e.attr.huge && e.attr.writable && !e.attr.noExec
  }

  /** Tables that the kernel root did not bring along hold no large pages, and links that restrict neither writing nor execution. */
  predicate PlainEntry(m: Memory, g: Ownership, f: PhysAddr, i: Index)
    requires f in g.nodes
  {
    var n := g.nodes[f];
    n.root != g.kernel && |n.path| < 3 && (n.path != [] || i < KERNEL_PML4_START) ==> Unrestricted(Rd(m, f, i))
  }

  predicate LinkOwned(m: Memory, g: Ownership, f: PhysAddr, i: Index)
    requires f in g.nodes
  {
    |g.nodes[f].path| < 3 && Link(Rd(m, f, i)) ==> ChildOwned(m, g, f, i)
  }

  ghost predicate Tree(m: Memory, g: Ownership) {
    && g.kernel !in g.spaces
    && (forall r {:trigger Live(g, r)} :: Live(g, r) ==> r in g.nodes && g.nodes[r] == Node(r, r, []))
    && (forall f {:trigger Placed(m, g, f)} :: f in g.nodes ==> Placed(m, g, f))
    && (forall f, i {:trigger LinkOwned(m, g, f, i)} :: f in g.nodes ==> LinkOwned(m, g, f, i))
    && (forall f, i {:trigger PlainEntry(m, g, f, i)} :: f in g.nodes ==> PlainEntry(m, g, f, i))
  }

  // ---- Where a walk can lead ------------------------------------------------

  /** A table reached from `r` is owned, sits at the depth and indices walked, and belongs to `r` or is shared. */
  lemma {:induction false} WalkOwned(m: Memory, g: Ownership, r: PhysAddr, p: Path, d: nat)
    requires Tree(m, g) && Live(g, r) && d <= |p| && d <= 3 && At(m, r, p, d).Some?
    ensures var f := At(m, r, p, d).value;
            && f in g.nodes && g.nodes[f].path == p[..d]
            && (g.nodes[f].root == r || (d > 0 && g.nodes[f].root == g.kernel && SharedEntry(m, g, r, p[0])))
  {
    if d > 0 {
      WalkOwned(m, g, r, p, d - 1);
      var h := At(m, r, p, d - 1).value;
      assert LinkOwned(m, g, h, p[d - 1]);
      assert p[..d] == p[..d - 1] + [p[d - 1]];
    }
  }

  /** Every node is where its path says: ownership records no unreachable table. */
  lemma {:induction false} NodeReached(m: Memory, g: Ownership, f: PhysAddr)
    requires Tree(m, g) && f in g.nodes
    ensures var n := g.nodes[f]; At(m, n.root, n.path, |n.path|) == Some(f)
    decreases |g.nodes[f].path|
  {
    var n := g.nodes[f];
    assert Placed(m, g, f);
    if n.path != [] {
      NodeReached(m, g, n.parent);
      AtPrefix(m, n.root, n.path, g.nodes[n.parent].path, |n.path| - 1);
    }
  }

  lemma {:induction false} AtPrefix(m: Memory, r: PhysAddr, p: Path, q: Path, d: nat)
    requires d <= |p| && d <= |q| && p[..d] == q[..d]
    ensures At(m, r, p, d) == At(m, r, q, d)
  {
    if d > 0 {
      assert p[..d - 1] == p[..d][..d - 1] && q[..d - 1] == q[..d][..d - 1];
      assert p[d - 1] == p[..d][d - 1] && q[d - 1] == q[..d][d - 1];
      AtPrefix(m, r, p, q, d - 1);
    }
  }

  /** Reaching one table along two walks: same depth, same indices, and same root unless the table is the kernel's. */
  lemma OnePath(m: Memory, g: Ownership, r: PhysAddr, p: Path, d: nat, r': PhysAddr, p': Path, d': nat)
    requires Tree(m, g) && Live(g, r) && Live(g, r') && d <= |p| && d' <= |p'| && d <= 3 && d' <= 3
    requires At(m, r, p, d).Some? && At(m, r, p, d) == At(m, r', p', d')
    ensures d == d' && p[..d] == p'[..d]
    ensures r == r' || (d > 0 && p[0] >= KERNEL_PML4_START && At(m, g.kernel, p, d) == At(m, r, p, d))
  {
    WalkOwned(m, g, r, p, d);
    WalkOwned(m, g, r', p', d');
    assert |p[..d]| == d && |p'[..d']| == d';
    if r != r' {
      var f := At(m, r, p, d).value;
      assert g.nodes[f].root == g.kernel;
      NodeReached(m, g, f);
      assert g.nodes[f].path[..d] == p[..d];
      AtPrefix(m, g.kernel, g.nodes[f].path, p, d);
      if d > 0 { assert p[0] == p[..d][0] && p'[0] == p'[..d][0]; }
    }
  }
}
