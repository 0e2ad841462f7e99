/**
 The order in which `address_space_destroy` returns table frames, and what that
 order contains.
 */
module Teardown {
  import opened Wrappers
  import opened Pte
  import opened FrameSupply
  import opened PageTree

  /** Only the lower half of a root is torn down. */
  function Width(d: nat): bv16 {
    if d == 0 then 256 else 512
  }

  /** Frames returned for the entries of table `f`, at depth `d`, from index `i` on: each subtree before its table. */
  function Sweep(m: Memory, f: PhysAddr, d: nat, i: bv16): seq<PhysAddr>
    requires d <= 2
    decreases 2 - d, 512 - i
  {
    if i >= Width(d) then []
    else Below(m, f, d, i) + Sweep(m, f, d, i + 1)
  }

  /** The subtree behind one entry, its own table last. */
  function Below(m: Memory, f: PhysAddr, d: nat, i: bv16): seq<PhysAddr>
    requires d <= 2 && i < Width(d)
    decreases 2 - d, 512 - i, 0
  {
    var e := Rd(m, f, i as bv9);
    if !Link(e) then []
    else (if d < 2 then Sweep(m, e.target, d + 1, 0) else []) + [e.target]
  }

  function DestroyOrder(m: Memory, root: PhysAddr): seq<PhysAddr> {
    Sweep(m, root, 0, 0) + [root]
  }

  /** `q` runs through a table with indices `p`, at depth `d`, leaving it at index `i` or later. */
  predicate Passes(q: Path, p: Path, d: nat, i: bv16) {
    d < |q| && q[..d] == p && i <= q[d] as bv16 < Width(d)
  }

  /** The table belongs to `r` and lies behind an entry of `f` from index `i` on. */
  predicate Behind(g: Ownership, f: PhysAddr, d: nat, i: bv16, t: PhysAddr)
    requires f in g.nodes
  {
    t in g.nodes && g.nodes[t].root == g.nodes[f].root && Passes(g.nodes[t].path, g.nodes[f].path, d, i)
  }

  ghost predicate PrivateTable(m: Memory, g: Ownership, f: PhysAddr, d: nat) {
    Tree(m, g) && f in g.nodes && |g.nodes[f].path| == d && d <= 2 && g.nodes[f].root in g.spaces
  }

  lemma ChildTable(m: Memory, g: Ownership, f: PhysAddr, d: nat, i: bv16)
    requires PrivateTable(m, g, f, d) && i < Width(d) && Link(Rd(m, f, i as bv9))
    ensures var c := Rd(m, f, i as bv9).target;
            c in g.nodes && g.nodes[c] == Node(g.nodes[f].root, f, g.nodes[f].path + [i as bv9])
  {
    assert LinkOwned(m, g, f, i as bv9);
    assert Live(g, g.nodes[f].root) && Live(g, g.kernel);
    if d == 0 {
      assert (i as bv9) < KERNEL_PML4_START;
    }
  }

  /** A table behind entry `i` of `f` is the child there or lies behind it. */
  lemma BehindEntry(m: Memory, g: Ownership, f: PhysAddr, d: nat, i: bv16, t: PhysAddr)
    requires PrivateTable(m, g, f, d) && i < Width(d)
    requires Behind(g, f, d, i, t) && g.nodes[t].path[d] == i as bv9
    ensures Link(Rd(m, f, i as bv9))
    ensures var c := Rd(m, f, i as bv9).target;
            t == c || (d < 2 && c in g.nodes && Behind(g, c, d + 1, 0, t))
  {
    var r, q := g.nodes[f].root, g.nodes[t].path;
    NodeReached(m, g, t);
    NodeReached(m, g, f);
    assert Placed(m, g, t);
    assert g.nodes[f].path[..d] == g.nodes[f].path;
    AtPrefix(m, r, q, g.nodes[f].path, d);
    AtSomeBelow(m, r, q, |q|, d + 1);
    ChildTable(m, g, f, d, i);
    var c := Rd(m, f, i as bv9).target;
    assert At(m, r, q, d + 1) == Some(c);
    assert q[..d + 1] == q[..d] + [q[d]];
  }

  lemma {:induction false} AtSomeBelow(m: Memory, r: PhysAddr, p: Path, d: nat, k: nat)
    requires k <= d <= |p| && At(m, r, p, d).Some?
    ensures At(m, r, p, k).Some?
    decreases d
  {
    if k < d {
      AtSomeBelow(m, r, p, d - 1, k);
    }
  }

  lemma PassesStep(q: Path, p: Path, d: nat, i: bv16)
    requires i < Width(d)
    ensures Passes(q, p, d, i) <==> Passes(q, p, d, i + 1) || (Passes(q, p, d, i) && q[d] == i as bv9)
    ensures Passes(q, p, d, i + 1) ==> q[d] != i as bv9
  {
  }

  /** What lies behind the child lies behind the entry, and so does the child. */
  lemma ChildBehind(m: Memory, g: Ownership, f: PhysAddr, d: nat, i: bv16, t: PhysAddr)
    requires PrivateTable(m, g, f, d) && i < Width(d) && Link(Rd(m, f, i as bv9))
    requires var c := Rd(m, f, i as bv9).target;
             t == c || (d < 2 && c in g.nodes && Behind(g, c, d + 1, 0, t))
    ensures Behind(g, f, d, i, t) && g.nodes[t].path[d] == i as bv9
  {
    ChildTable(m, g, f, d, i);
    var c := Rd(m, f, i as bv9).target;
    var q := g.nodes[t].path;
    if t == c {
      assert q[..d] == g.nodes[f].path;
    } else {
      assert q[..d + 1] == g.nodes[c].path;
      assert q[..d] == q[..d + 1][..d] == g.nodes[f].path;
      assert q[d] == q[..d + 1][d];
    }
  }

  /** The sweep of a table returns the tables behind it: all of them, no others. */
  lemma {:induction false} SweepExact(m: Memory, g: Ownership, f: PhysAddr, d: nat, i: bv16, t: PhysAddr)
    requires PrivateTable(m, g, f, d) && i <= Width(d)
    ensures t in Sweep(m, f, d, i) <==> Behind(g, f, d, i, t)
    decreases 2 - d, 512 - i
  {
    if i < Width(d) {
      SweepExact(m, g, f, d, i + 1, t);
      BelowExact(m, g, f, d, i, t);
      if t in g.nodes {
        PassesStep(g.nodes[t].path, g.nodes[f].path, d, i);
      }
      var a, b := Below(m, f, d, i), Sweep(m, f, d, i + 1);
      assert Sweep(m, f, d, i) == a + b;
      assert t in a + b <==> t in a || t in b;
    }
  }

  lemma {:induction false} BelowExact(m: Memory, g: Ownership, f: PhysAddr, d: nat, i: bv16, t: PhysAddr)
    requires PrivateTable(m, g, f, d) && i < Width(d)
    ensures t in Below(m, f, d, i) <==> Behind(g, f, d, i, t) && g.nodes[t].path[d] == i as bv9
    decreases 2 - d, 512 - i, 0
  {
    var e := Rd(m, f, i as bv9);
    if Behind(g, f, d, i, t) && g.nodes[t].path[d] == i as bv9 {
      BehindEntry(m, g, f, d, i, t);
    }
    if Link(e) {
      ChildTable(m, g, f, d, i);
      if d < 2 {
        SweepExact(m, g, e.target, d + 1, 0, t);
      }
      if t in Below(m, f, d, i) {
        ChildBehind(m, g, f, d, i, t);
      }
    }
  }

  /** The sweep returns no table twice. */
  lemma {:induction false} SweepNoDuplicates(m: Memory, g: Ownership, f: PhysAddr, d: nat, i: bv16)
    requires PrivateTable(m, g, f, d) && i <= Width(d)
    ensures NoDuplicates(Sweep(m, f, d, i))
    decreases 2 - d, 512 - i
  {
    if i < Width(d) {
      SweepNoDuplicates(m, g, f, d, i + 1);
      BelowNoDuplicates(m, g, f, d, i);
      var a, b := Below(m, f, d, i), Sweep(m, f, d, i + 1);
      forall t | t in a ensures t !in b {
        BelowExact(m, g, f, d, i, t);
        SweepExact(m, g, f, d, i + 1, t);
        PassesStep(g.nodes[t].path, g.nodes[f].path, d, i);
      }
      assert Sweep(m, f, d, i) == a + b;
      NoDuplicatesConcat(a, b);
    }
  }

  lemma {:induction false} BelowNoDuplicates(m: Memory, g: Ownership, f: PhysAddr, d: nat, i: bv16)
    requires PrivateTable(m, g, f, d) && i < Width(d)
    ensures NoDuplicates(Below(m, f, d, i))
    decreases 2 - d, 512 - i, 0
  {
    var e := Rd(m, f, i as bv9);
    if Link(e) && d < 2 {
      ChildTable(m, g, f, d, i);
      SweepNoDuplicates(m, g, e.target, d + 1, 0);
      SweepExact(m, g, e.target, d + 1, 0, e.target);
      NoDuplicatesConcat(Sweep(m, e.target, d + 1, 0), [e.target]);
    }
  }

  /** The root and the tables of the lower half of an address space. */
  ghost function LowerTables(g: Ownership, r: PhysAddr): set<PhysAddr> {
    set f | f in g.nodes && g.nodes[f].root == r && (g.nodes[f].path == [] || g.nodes[f].path[0] < KERNEL_PML4_START)
  }

  /**
   Destroying a space returns its root and each table of its lower half exactly once
   and nothing else: no mapped data frame, no table of another space, no shared one.
   */
  lemma DestroyExact(m: Memory, g: Ownership, r: PhysAddr)
    requires Tree(m, g) && r in g.spaces
    ensures NoDuplicates(DestroyOrder(m, r))
    ensures Elements(DestroyOrder(m, r)) == LowerTables(g, r)
  {
    assert Live(g, r);
    SweepNoDuplicates(m, g, r, 0, 0);
    SweepExact(m, g, r, 0, 0, r);
    NoDuplicatesConcat(Sweep(m, r, 0, 0), [r]);
    forall t ensures t in Elements(DestroyOrder(m, r)) <==> t in LowerTables(g, r) {
      SweepExact(m, g, r, 0, 0, t);
      if t in g.nodes {
        assert Placed(m, g, t);
      }
    }
  }

  // ---- In which order -------------------------------------------------------

  /** Post-order on positions: what lies under a table comes before it, and lower indices come first. */
  predicate Before(p: Path, q: Path) {
    if q == [] then p != []
    else if p == [] then false
    else if p[0] != q[0] then p[0] < q[0]
    else Before(p[1..], q[1..])
  }

  lemma {:induction false} DivergeBefore(p: Path, q: Path, d: nat)
    requires d < |p| && d < |q| && p[..d] == q[..d] && p[d] < q[d]
    ensures Before(p, q)
    decreases d
  {
    if d > 0 {
      assert p[0] == p[..d][0] && q[0] == q[..d][0];
      assert p[1..][..d - 1] == p[..d][1..] && q[1..][..d - 1] == q[..d][1..];
      DivergeBefore(p[1..], q[1..], d - 1);
    }
  }

  lemma {:induction false} UnderBefore(p: Path, q: Path)
    requires |q| < |p| && p[..|q|] == q
    ensures Before(p, q)
    decreases |q|
  {
    if q != [] {
      assert p[0] == p[..|q|][0];
      assert p[1..][..|q| - 1] == p[..|q|][1..];
      UnderBefore(p[1..], q[1..]);
    }
  }

  predicate TableBefore(g: Ownership, t: PhysAddr, u: PhysAddr) {
    t in g.nodes && u in g.nodes && Before(g.nodes[t].path, g.nodes[u].path)
  }

  ghost predicate InPostOrder(g: Ownership, s: seq<PhysAddr>) {
    forall i, j :: 0 <= i < j < |s| ==> TableBefore(g, s[i], s[j])
  }

  lemma InPostOrderConcat(g: Ownership, a: seq<PhysAddr>, b: seq<PhysAddr>)
    requires InPostOrder(g, a) && InPostOrder(g, b) && forall t, u :: t in a && u in b ==> TableBefore(g, t, u)
    ensures InPostOrder(g, a + b)
  {
    forall i, j | 0 <= i < j < |a + b| ensures TableBefore(g, (a + b)[i], (a + b)[j]) {
      if i < |a| <= j {
        assert a[i] in a && b[j - |a|] in b;
      }
    }
  }

  /** The position runs through table `f`. */
  predicate Through(g: Ownership, f: PhysAddr, d: nat, t: PhysAddr) {
    t in g.nodes && f in g.nodes && d < |g.nodes[t].path| && g.nodes[t].path[..d] == g.nodes[f].path
  }

  /** All of them leave table `f` at index `x`. */
  ghost predicate LeaveAt(g: Ownership, f: PhysAddr, d: nat, ts: seq<PhysAddr>, x: Index) {
    forall t :: t in ts ==> Through(g, f, d, t) && g.nodes[t].path[d] == x
  }

  /** All of them leave table `f` behind index `x`. */
  ghost predicate LeaveAfter(g: Ownership, f: PhysAddr, d: nat, ts: seq<PhysAddr>, x: Index) {
    forall t :: t in ts ==> Through(g, f, d, t) && x < g.nodes[t].path[d]
  }

  lemma BelowLeavesAt(m: Memory, g: Ownership, f: PhysAddr, d: nat, i: bv16)
    requires PrivateTable(m, g, f, d) && i < Width(d)
    ensures LeaveAt(g, f, d, Below(m, f, d, i), i as bv9)
  {
    forall t | t in Below(m, f, d, i) ensures Through(g, f, d, t) && g.nodes[t].path[d] == i as bv9 {
      BelowExact(m, g, f, d, i, t);
    }
  }

  lemma SweepLeavesAfter(m: Memory, g: Ownership, f: PhysAddr, d: nat, j: bv16, x: Index)
    requires PrivateTable(m, g, f, d) && j <= Width(d) && (x as bv16) < j
    ensures LeaveAfter(g, f, d, Sweep(m, f, d, j), x)
  {
    forall t | t in Sweep(m, f, d, j) ensures Through(g, f, d, t) && x < g.nodes[t].path[d] {
      SweepExact(m, g, f, d, j, t);
      LowerIndex(x, j, g.nodes[t].path[d]);
    }
  }

  lemma LowerIndex(x: bv9, j: bv16, y: bv9)
    requires x as bv16 < j <= y as bv16
    ensures x < y
  {
  }

  lemma CrossOrder(g: Ownership, f: PhysAddr, d: nat, a: seq<PhysAddr>, b: seq<PhysAddr>, x: Index)
    requires LeaveAt(g, f, d, a, x) && LeaveAfter(g, f, d, b, x)
    ensures forall t, u :: t in a && u in b ==> TableBefore(g, t, u)
  {
    forall t, u | t in a && u in b ensures TableBefore(g, t, u) {
      DivergeBefore(g.nodes[t].path, g.nodes[u].path, d);
    }
  }

  lemma NextIndex(i: bv16)
    requires i < 512
    ensures ((i as bv9) as bv16) < i + 1
  {
  }

  lemma LaterLeaveAfter(m: Memory, g: Ownership, f: PhysAddr, d: nat, i: bv16)
    requires PrivateTable(m, g, f, d) && i < Width(d)
    ensures LeaveAfter(g, f, d, Sweep(m, f, d, i + 1), i as bv9)
  {
    NextIndex(i);
    SweepLeavesAfter(m, g, f, d, i + 1, i as bv9);
  }

  lemma {:induction false} SweepInPostOrder(m: Memory, g: Ownership, f: PhysAddr, d: nat, i: bv16)
    requires PrivateTable(m, g, f, d) && i <= Width(d)
    ensures InPostOrder(g, Sweep(m, f, d, i))
    decreases 2 - d, 512 - i
  {
    if i < Width(d) {
      SweepInPostOrder(m, g, f, d, i + 1);
      BelowInPostOrder(m, g, f, d, i);
      BelowLeavesAt(m, g, f, d, i);
      LaterLeaveAfter(m, g, f, d, i);
      CrossOrder(g, f, d, Below(m, f, d, i), Sweep(m, f, d, i + 1), i as bv9);
      InPostOrderConcat(g, Below(m, f, d, i), Sweep(m, f, d, i + 1));
    }
  }

  lemma {:induction false} BelowInPostOrder(m: Memory, g: Ownership, f: PhysAddr, d: nat, i: bv16)
    requires PrivateTable(m, g, f, d) && i < Width(d)
    ensures InPostOrder(g, Below(m, f, d, i))
    decreases 2 - d, 512 - i, 0
  {
    var e := Rd(m, f, i as bv9);
    if Link(e) && d < 2 {
      ChildTable(m, g, f, d, i);
      SweepInPostOrder(m, g, e.target, d + 1, 0);
      var sub := Sweep(m, e.target, d + 1, 0);
      forall t, u | t in sub && u in [e.target] ensures TableBefore(g, t, u) {
        SweepExact(m, g, e.target, d + 1, 0, t);
        UnderBefore(g.nodes[t].path, g.nodes[e.target].path);
      }
      InPostOrderConcat(g, sub, [e.target]);
    }
  }

  /**
   The order of destruction: every table comes after all tables under it, subtrees in
   the order of their indices, the root last.  Together with `DestroyExact` this leaves
   one order only.
   */
  lemma DestroyInPostOrder(m: Memory, g: Ownership, r: PhysAddr)
    requires Tree(m, g) && r in g.spaces
    ensures InPostOrder(g, DestroyOrder(m, r))
  {
    assert Live(g, r);
    SweepInPostOrder(m, g, r, 0, 0);
    var sub := Sweep(m, r, 0, 0);
    forall t, u | t in sub && u in [r] ensures TableBefore(g, t, u) {
      SweepExact(m, g, r, 0, 0, t);
      UnderBefore(g.nodes[t].path, []);
    }
    InPostOrderConcat(g, sub, [r]);
  }
}
