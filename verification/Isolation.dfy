/**
 What one address space can do to what another one translates.
 */
module Isolation {
  import opened Wrappers
  import opened Pte
  import opened PageTree
  import opened PageMapper
  import opened Views
  import opened Slots
  import opened Machine

  /** `translate` reads the map of the space: the bound frame, with the page offset filled in. */
  lemma TranslateReadsView(s: State, h: Handle, v: bv64)
    requires SmallPath(s.ram.mem, RootOf(s, h), PageOf(v)) && IsCanonical(v)
    ensures var view := View(s.ram.mem, RootOf(s, h));
            Translate(s, h, v) ==
            if PageOf(v) in view then Physical(WithOffset(view[PageOf(v)].target, v)) else Fault(NotPresent)
  {
    WalkIsLeaf(s.ram.mem, RootOf(s, h), PageOf(v));
  }

  /** An address is invalid if and only if it lies between the two canonical halves, whatever the tables hold. */
  lemma TranslateInvalid(s: State, h: Handle, v: bv64)
    ensures Translate(s, h, v) == Fault(InvalidAddress) <==> 0x8000_0000_0000 <= v < 0xffff_8000_0000_0000
  {
    CanonicalRange(v);
  }

  lemma SameViewSameTranslation(s: State, s': State, g: Ownership, h: Handle, v: bv64)
    requires RootOf(s', h) == RootOf(s, h) && Live(g, RootOf(s, h))
    requires (IsCanonical(v) ==> SmallPath(s.ram.mem, RootOf(s, h), PageOf(v))) && Keeps(s.ram.mem, s'.ram.mem, g)
    requires View(s'.ram.mem, RootOf(s, h)) == View(s.ram.mem, RootOf(s, h))
    ensures Translate(s', h, v) == Translate(s, h, v)
  {
    if IsCanonical(v) {
      assert StaysSmall(s.ram.mem, s'.ram.mem, g, RootOf(s, h), PageOf(v));
      TranslateReadsView(s, h, v);
      TranslateReadsView(s', h, v);
    }
  }

  /** The page an operation edits: its address is canonical and aligned, and so is the frame it maps. */
  predicate Sane(op: Op)
    requires op.Map? || op.Unmap? || op.Protect?
  {
    Aligned4K(op.v) && IsCanonical(op.v) && (op.Map? ==> Aligned4K(op.p))
  }

  /** The result code of an editing operation. */
  function ResultOf(s: State, op: Op): Result<()>
    requires op.Map? || op.Unmap? || op.Protect?
  {
    match op
    case Map(h, v, p, flags) => Map4K(s, h, v, p, flags).1
    case Unmap(h, v) => Unmap4K(s, h, v).1
    case Protect(h, v, flags) => Protect4K(s, h, v, flags).1
  }

  /** What a successful operation binds its page to. */
  ghost function Binding(s: State, op: Op): Option<Entry>
    requires op.Map? || op.Unmap? || (op.Protect? && PageOf(op.v) in View(s.ram.mem, RootOf(s, op.h)))
  {
    match op
    case Map(_, _, p, flags) => Some(LeafEntry(p, flags, s.nxe))
    case Unmap(_, _) => None
    case Protect(h, v, flags) => Some(Entry(View(s.ram.mem, RootOf(s, h))[PageOf(v)].target, FlagsToAttr(flags, s.nxe)))
  }

  /** The result code of an operation, by what its arguments are and whether the page is bound. */
  ghost predicate Answered(s: State, op: Op, res: Result<()>)
    requires op.Map? || op.Unmap? || op.Protect?
  {
    var bound := PageOf(op.v) in View(s.ram.mem, RootOf(s, op.h));
    if !Aligned4K(op.v) || (op.Map? && !Aligned4K(op.p)) then res == Err(Unaligned)
    else if !IsCanonical(op.v) then res == Err(InvalidArgs)
    else if op.Map? then (if bound then res == Err(AlreadyMapped) else res == Ok(()) || res == Err(OutOfMemory))
    else res == if bound then Ok(()) else Err(NotMapped)
  }

  /**
   An operation as an update of maps, with its result code.  Success rebinds one page,
   for the space and those sharing the table; a map overrides no binding.  Failure
   rebinds nothing anywhere and, out of memory aside, changes nothing at all.
   */
  ghost predicate Refined(s: State, l: Ledger, op: Op)
    requires op.Map? || op.Unmap? || op.Protect?
  {
    var s', res := Step(s, op), ResultOf(s, op);
    var page := PageOf(op.v);
    && Keeps(s.ram.mem, s'.ram.mem, l.own)
    && Answered(s, op, res)
    && (res.Ok? ==> && (op.Protect? ==> page in View(s.ram.mem, RootOf(s, op.h)))
                    && Edited(s.ram.mem, s'.ram.mem, l.own, RootOf(s, op.h), page, Binding(s, op))
                    && (op.Map? ==> Unbound(s.ram.mem, s'.ram.mem, l.own, RootOf(s, op.h), page)))
    && (res.Err? ==> SameViews(s.ram.mem, s'.ram.mem, l.own))
    && (res.Err? && res.error != OutOfMemory ==> s' == s)
  }

  lemma RefusedIsRefined(s: State, l: Ledger, op: Op)
    requires (op.Map? || op.Unmap? || op.Protect?) && !Sane(op)
    ensures Refined(s, l, op)
  {
  }

  lemma MapRefined(s: State, l: Ledger, op: Op)
    requires Inv(s, l) && op.Map? && Sane(op) && Allowed(s, op)
    ensures Refined(s, l, op)
  {
    LiveHandleRoot(s, l, op.h);
    MapOutcome(s.ram, l, RootOf(s, op.h), PageOf(op.v), LeafEntry(op.p, op.flags, s.nxe));
  }

  /** What mapping a page comes to, on every outcome. */
  lemma MapOutcome(s: Ram, l: Ledger, r: PhysAddr, page: Page, e: Entry)
    requires Balanced(s, l) && Live(l.own, r) && SmallPath(s.mem, r, page) && e.attr.present
    ensures var (s', res) := MapPage(s, r, page, e);
            && Keeps(s.mem, s'.mem, l.own)
            && (if page in View(s.mem, r) then res == Err(AlreadyMapped) else res == Ok(()) || res == Err(OutOfMemory))
            && (res.Ok? ==> Edited(s.mem, s'.mem, l.own, r, page, Some(e)) && Unbound(s.mem, s'.mem, l.own, r, page))
            && (res.Err? ==> SameViews(s.mem, s'.mem, l.own))
            && (res.Err? && res.error != OutOfMemory ==> s' == s)
  {
    MapRefinesUpdate(s, l, r, page, e);
  }

  /** A map that succeeds binds its page to its entry. */
  lemma MapBinds(s: Ram, l: Ledger, r: PhysAddr, page: Page, e: Entry)
    requires Balanced(s, l) && Live(l.own, r) && SmallPath(s.mem, r, page) && e.attr.present && MapPage(s, r, page, e).1.Ok?
    ensures var m' := MapPage(s, r, page, e).0.mem;
            SmallPath(m', r, page) && At(m', r, page, 3).Some? && Leaf(m', r, page) == Some(e)
  {
    var m' := MapPage(s, r, page, e).0.mem;
    MapRefinesUpdate(s, l, r, page, e);
    assert EditedIn(s.mem, m', l.own, r, page, Some(e), r);
    assert StaysSmall(s.mem, m', l.own, r, page);
    assert View(m', r)[page] == e;
  }

  lemma UnmapRefined(s: State, l: Ledger, op: Op)
    requires Inv(s, l) && op.Unmap? && Sane(op) && Allowed(s, op)
    ensures Refined(s, l, op)
  {
    LiveHandleRoot(s, l, op.h);
    UnmapRefinesUpdate(s.ram.mem, l.own, RootOf(s, op.h), PageOf(op.v));
  }

  lemma ProtectRefined(s: State, l: Ledger, op: Op)
    requires Inv(s, l) && op.Protect? && Sane(op) && Allowed(s, op)
    ensures Refined(s, l, op)
  {
    LiveHandleRoot(s, l, op.h);
    ProtectRefinesUpdate(s.ram.mem, l.own, RootOf(s, op.h), PageOf(op.v), FlagsToAttr(op.flags, s.nxe));
  }

  /** Every editing operation, on every argument, is the update of maps it should be. */
  lemma EditRefinesUpdate(s: State, l: Ledger, op: Op)
    requires Inv(s, l) && (op.Map? || op.Unmap? || op.Protect?) && Allowed(s, op)
    ensures Refined(s, l, op)
  {
    if !Sane(op) {
      RefusedIsRefined(s, l, op);
    } else {
      match op
      case Map(_, _, _, _) => MapRefined(s, l, op);
      case Unmap(_, _) => UnmapRefined(s, l, op);
      case Protect(_, _, _) => ProtectRefined(s, l, op);
    }
  }

  /**
   Isolation: mapping, unmapping or protecting a lower-half address of one space
   leaves every translation of every other space, the kernel's included, as it was.
   */
  lemma TranslationIsolated(s: State, l: Ledger, op: Op, h': Handle, v': bv64)
    requires Inv(s, l) && (op.Map? || op.Unmap? || op.Protect?) && Allowed(s, op)
    requires PageOf(op.v)[0] < KERNEL_PML4_START
    requires LiveHandle(s, h') && h' != op.h && (IsCanonical(v') ==> SmallPath(s.ram.mem, RootOf(s, h'), PageOf(v')))
    ensures Translate(Step(s, op), h', v') == Translate(s, h', v')
  {
    var s', r, r' := Step(s, op), RootOf(s, op.h), RootOf(s, h');
    EditRefinesUpdate(s, l, op);
    StepKeepsInv(s, l, op);
    LiveHandleRoot(s, l, op.h);
    LiveHandleRoot(s, l, h');
    DistinctHandles(s, l, op.h, h');
    if ResultOf(s, op).Ok? {
      IsolatedView(s.ram.mem, s'.ram.mem, l.own, LedgerStep(s, l, op).own, r, PageOf(op.v), Binding(s, op), r');
    } else {
      assert SameViewIn(s.ram.mem, s'.ram.mem, l.own, r');
    }
    SameViewSameTranslation(s, s', l.own, h', v');
  }

  /** A map that fails, for whatever reason and however far it got, changes no translation of any space. */
  lemma FailedMapIsInvisible(s: State, l: Ledger, op: Op, h': Handle, v': bv64)
    requires Inv(s, l) && op.Map? && Allowed(s, op) && ResultOf(s, op).Err?
    requires LiveHandle(s, h') && (IsCanonical(v') ==> SmallPath(s.ram.mem, RootOf(s, h'), PageOf(v')))
    ensures Translate(Step(s, op), h', v') == Translate(s, h', v')
  {
    EditRefinesUpdate(s, l, op);
    LiveHandleRoot(s, l, h');
    assert SameViewIn(s.ram.mem, Step(s, op).ram.mem, l.own, RootOf(s, h'));
    SameViewSameTranslation(s, Step(s, op), l.own, h', v');
  }

  // ---- Why large pages are excluded -----------------------------------------

  /** Behind entries `i` and `j` the kernel has a large page that lies over the root of `h`. */
  predicate Overlaid(s: State, h: Handle, i: Index, j: Index) {
    var top := Rd(s.ram.mem, s.kernel, i);
    var large := Rd(s.ram.mem, top.target, j);
    Link(top) && LargePage(large) && large.target == RootOf(s, h)
  }

  lemma LinksOnPath(m: Memory, r: PhysAddr, page: Page)
    requires At(m, r, page, 3).Some?
    ensures Link(Rd(m, r, page[0])) && Link(Rd(m, Rd(m, r, page[0]).target, page[1]))
  {
    assert At(m, r, page, 0) == Some(r);
    assert At(m, r, page, 2).Some? && At(m, r, page, 1).Some?;
  }

  lemma OverlayStays(s: Ram, l: Ledger, r: PhysAddr, page: Page, e: Entry, i: Index, j: Index)
    requires Balanced(s, l) && Live(l.own, r) && SmallPath(s.mem, r, page) && e.attr.present
    requires Link(Rd(s.mem, l.own.kernel, i)) && LargePage(Rd(s.mem, Rd(s.mem, l.own.kernel, i).target, j))
    ensures var m' := MapPage(s, r, page, e).0.mem;
            && Rd(m', l.own.kernel, i) == Rd(s.mem, l.own.kernel, i)
            && Rd(m', Rd(s.mem, l.own.kernel, i).target, j) == Rd(s.mem, Rd(s.mem, l.own.kernel, i).target, j)
  {
    var m' := MapPage(s, r, page, e).0.mem;
    MapRefinesUpdate(s, l, r, page, e);
    assert Live(l.own, l.own.kernel) && LinkOwned(s.mem, l.own, l.own.kernel, i);
    assert SameEntry(s.mem, m', l.own, l.own.kernel, i) && SameEntry(s.mem, m', l.own, Rd(s.mem, l.own.kernel, i).target, j);
  }

  /**
   On a path with a large page isolation fails.  The code walks into the page as if it
   were a table.  Where the page lies over the root of a space, every map of the first
   page in a 512 GiB region of that space makes an address of the kernel translate that
   did not translate before.
   */
  lemma LargePageBreaksIsolation(s: State, l: Ledger, h: Handle, v: bv64, p: bv64, flags: MapFlags, v': bv64, i: Index, j: Index)
    requires Inv(s, l) && Allowed(s, Map(h, v, p, flags)) && Map4K(s, h, v, p, flags).1.Ok?
    requires !Rd(s.ram.mem, RootOf(s, h), PageOf(v)[0]).attr.present
    requires Overlaid(s, h, i, j) && IsCanonical(v') && PageOf(v') == [i, j, PageOf(v)[0], PageOf(v)[1]]
    ensures Translate(s, KernelHandle, v') == Fault(NotPresent)
    ensures Translate(Map4K(s, h, v, p, flags).0, KernelHandle, v').Physical?
  {
    var r, e := RootOf(s, h), LeafEntry(p, flags, s.nxe);
    LiveHandleRoot(s, l, h);
    OverlayStays(s.ram, l, r, PageOf(v), e, i, j);
    MapRefinesUpdate(s.ram, l, r, PageOf(v), e);
    LinksOnPath(MapPage(s.ram, r, PageOf(v), e).0.mem, r, PageOf(v));
  }
}
