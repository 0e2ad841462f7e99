/**
 Cached translations on several processors, and the shootdown protocol that keeps
 them honest.

 Any processor may cache any binding of its active space at any time, may forget it at
 any time, and may set accessed and dirty bits in the entries it walks.  `map_4k`, `unmap_4k` and `protect_4k` invalidate the page on the
 processor that runs them; a shootdown invalidates locally and sends an interrupt to
 all others; the handler reloads CR3, which spares GLOBAL entries.
 */
module Tlb {
  import opened Wrappers
  import opened Pte
  import opened PageTree
  import opened PageMapper
  import opened Views
  import opened Slots
  import opened Machine
  import opened Isolation
  import opened HardwareBits

  const TLB_SHOOTDOWN_VEC: bv8 := 0xe1
  const APIC_MODE_NONE: bv8 := 0

  /** A processor: active root, cached bindings, interrupt vectors waiting to be delivered. */
  datatype Cpu = Cpu(cr3: PhysAddr, tlb: map<Page, Entry>, pending: set<bv8>)

  /**
   The multiprocessor.  `owed` is a history variable that no step reads: the pages
   unmapped or protected whose shootdown has not been sent yet.
   */
  datatype Smp = Smp(s: State, cpus: map<nat, Cpu>, apicMode: bv8, owed: set<Page>)

  // ---- Flushes --------------------------------------------------------------

  /** `invlpg`: one page, GLOBAL or not. */
  function FlushPage(c: Cpu, page: Page): Cpu {
    c.(tlb := c.tlb - {page})
  }

  /** `invlpg` by address does nothing on one that is not canonical. */
  function FlushAddress(c: Cpu, v: bv64): Cpu {
    if IsCanonical(v) then FlushPage(c, PageOf(v)) else c
  }

  /** Writing CR3 with CR4.PGE set: everything but the GLOBAL entries. */
  function FlushAll(c: Cpu): Cpu {
    c.(tlb := map p | p in c.tlb && c.tlb[p].attr.global :: c.tlb[p])
  }

  /** `send_ipi_all_others`: silent while the APIC is not initialised. */
  function SendToOthers(t: Smp, me: nat, vec: bv8): map<nat, Cpu> {
    if t.apicMode == APIC_MODE_NONE then t.cpus
    else map c | c in t.cpus :: if c == me then t.cpus[c] else t.cpus[c].(pending := t.cpus[c].pending + {vec})
  }

  /** `irq_dispatch`: the shootdown vector flushes, any other is passed on. */
  function Dispatch(c: Cpu, vec: bv8): Cpu {
    var acked := c.(pending := c.pending - {vec});
    if vec == TLB_SHOOTDOWN_VEC then FlushAll(acked) else acked
  }

  // ---- Steps ----------------------------------------------------------------

  datatype Event =
    | Fill(cpu: nat, page: Page)
    | Forget(cpu: nat, page: Page)
    | SetBits(cpu: nat, page: Page, depth: nat, bits: bv64)
    | Edit(cpu: nat, op: Op)
    | Create(cpu: nat)
    | Tear(cpu: nat, h: Handle)
    | Activate(cpu: nat, h: Handle)
    | ShootPage(cpu: nat, v: bv64)
    | ShootAll(cpu: nat)
    | Raise(cpu: nat, vec: bv8)
    | Deliver(cpu: nat, vec: bv8)

  /** Bindings are cached in the active space only, from what its tables hold at that moment. */
  function Filled(m: Memory, c: Cpu, page: Page): Cpu {
    match Leaf(m, c.cr3, page)
    case None => c
    case Some(e) => c.(tlb := c.tlb[page := e])
  }

  function Marked(s: State, r: PhysAddr, page: Page, d: nat, bits: bv64): State
    requires d < 4
  {
    s.(ram := s.ram.(mem := Touch(s.ram.mem, r, page, d, bits)))
  }

  predicate Enabled(t: Smp, ev: Event) {
    && ev.cpu in t.cpus
    && match ev
       case Edit(_, op) => (op.Map? || op.Unmap? || op.Protect?) && Allowed(t.s, op)
       case Tear(_, h) => LiveHandle(t.s, h) && (h != KernelHandle ==> forall c | c in t.cpus :: t.cpus[c].cr3 != RootOf(t.s, h))
       case Activate(_, h) => LiveHandle(t.s, h)
       case Deliver(c, vec) => vec in t.cpus[c].pending
       case SetBits(_, _, d, bits) => d < 4 && HardwareBit(bits)
       case _ => true
  }

  function Next(t: Smp, ev: Event): Smp
    requires Enabled(t, ev)
  {
    var me := ev.cpu;
    var c := t.cpus[me];
    match ev
    case Fill(_, page) => t.(cpus := t.cpus[me := Filled(t.s.ram.mem, c, page)])
    case Forget(_, page) => t.(cpus := t.cpus[me := FlushPage(c, page)])
    case SetBits(_, page, d, bits) => t.(s := Marked(t.s, c.cr3, page, d, bits))
    case Edit(_, op) =>
      if ResultOf(t.s, op).Err? then t.(s := Step(t.s, op))
      else
        var page := PageOf(op.v);
        t.(s := Step(t.s, op), cpus := t.cpus[me := FlushPage(c, page)], owed := if op.Map? then t.owed else t.owed + {page})
    case Create(_) => t.(s := Step(t.s, New))
    case Tear(_, h) => t.(s := Step(t.s, Destroy(h)))
    case Activate(_, h) => t.(cpus := t.cpus[me := FlushAll(c).(cr3 := RootOf(t.s, h))])
    case ShootPage(_, v) =>
      var t1 := t.(cpus := t.cpus[me := FlushAddress(c, v)]);
      t1.(cpus := SendToOthers(t1, me, TLB_SHOOTDOWN_VEC),
      owed := if t.apicMode == APIC_MODE_NONE || !IsCanonical(v) then t.owed else t.owed - {PageOf(v)})
    case ShootAll(_) =>
      var t1 := t.(cpus := t.cpus[me := FlushAll(c)]);
      t1.(cpus := SendToOthers(t1, me, TLB_SHOOTDOWN_VEC), owed := if t.apicMode == APIC_MODE_NONE then t.owed else {})
    case Raise(_, vec) => t.(cpus := t.cpus[me := c.(pending := c.pending + {vec})])
    case Deliver(_, vec) => t.(cpus := t.cpus[me := Dispatch(c, vec)])
  }

  // ---- The invariant --------------------------------------------------------

  /** The tables hold this binding, accessed and dirty bits aside. */
  predicate Agrees(o: Option<Entry>, e: Entry) {
    o.Some? && SameButRest(o.value, e)
  }

  /** A cached non-GLOBAL binding that the tables no longer hold. */
  predicate Stale(m: Memory, c: Cpu, page: Page) {
    page in c.tlb && !c.tlb[page].attr.global && !Agrees(Leaf(m, c.cr3, page), c.tlb[page])
  }

  /** Stale only while a flush is on its way or still owed. */
  predicate Excused(t: Smp, c: nat, page: Page) {
    c in t.cpus && Stale(t.s.ram.mem, t.cpus[c], page) ==>
      TLB_SHOOTDOWN_VEC in t.cpus[c].pending || page in t.owed
  }

  ghost predicate Coherent(t: Smp, l: Ledger) {
    && Inv(t.s, l)
    && (forall c {:trigger t.cpus[c]} :: c in t.cpus ==> Live(l.own, t.cpus[c].cr3))
    && (forall c, page: Page :: Excused(t, c, page))
  }

  ghost function LedgerNext(t: Smp, l: Ledger, ev: Event): Ledger
    requires Enabled(t, ev)
  {
    match ev
    case Edit(_, op) => LedgerStep(t.s, l, op)
    case Create(_) => LedgerStep(t.s, l, New)
    case Tear(_, h) => LedgerStep(t.s, l, Destroy(h))
    case _ => l
  }

  // ---- What an edit does to a walk ------------------------------------------

  lemma LeafOfView(m: Memory, r: PhysAddr, page: Page)
    ensures Leaf(m, r, page) == if page in View(m, r) then Some(View(m, r)[page]) else None
  {
  }

  /** An edit that succeeds changes the binding of its own page at most; a map never replaces one. */
  lemma EditChangesOnePage(s: State, l: Ledger, op: Op, r: PhysAddr, page: Page)
    requires Inv(s, l) && (op.Map? || op.Unmap? || op.Protect?) && Allowed(s, op) && Live(l.own, r)
    ensures Leaf(Step(s, op).ram.mem, r, page) != Leaf(s.ram.mem, r, page) ==>
              ResultOf(s, op).Ok? && page == PageOf(op.v) && (op.Map? ==> Leaf(s.ram.mem, r, page).None?)
  {
    var m, m' := s.ram.mem, Step(s, op).ram.mem;
    EditRefinesUpdate(s, l, op);
    LeafOfView(m, r, page);
    LeafOfView(m', r, page);
    if ResultOf(s, op).Ok? {
      assert EditedIn(m, m', l.own, RootOf(s, op.h), PageOf(op.v), Binding(s, op), r);
      if op.Map? {
        assert UnboundIn(m, m', l.own, RootOf(s, op.h), PageOf(op.v), r);
      }
    } else {
      assert SameViewIn(m, m', l.own, r);
    }
  }

  // ---- Every step keeps the invariant ---------------------------------------

  /** What an edit does to a processor: it may lose the page, nothing else. */
  lemma EditOnCpu(t: Smp, ev: Event, c: nat, page: Page)
    requires Enabled(t, ev) && ev.Edit? && c in t.cpus
    ensures var t' := Next(t, ev);
            && t'.s == Step(t.s, ev.op) && c in t'.cpus
            && t'.cpus[c].cr3 == t.cpus[c].cr3 && t'.cpus[c].pending == t.cpus[c].pending
            && (page in t'.cpus[c].tlb ==> page in t.cpus[c].tlb && t'.cpus[c].tlb[page] == t.cpus[c].tlb[page])
            && (page in t.owed ==> page in t'.owed)
            && (ResultOf(t.s, ev.op).Ok? && !ev.op.Map? && page == PageOf(ev.op.v) ==> page in t'.owed)
  {
  }

  lemma EditExcused(t: Smp, l: Ledger, ev: Event, c: nat, page: Page)
    requires Coherent(t, l) && Enabled(t, ev) && ev.Edit?
    ensures Excused(Next(t, ev), c, page)
  {
    assert Excused(t, c, page);
    if c in t.cpus {
      assert Live(l.own, t.cpus[c].cr3);
      EditOnCpu(t, ev, c, page);
      EditChangesOnePage(t.s, l, ev.op, t.cpus[c].cr3, page);
    }
  }

  lemma SpaceExcused(t: Smp, l: Ledger, ev: Event, c: nat, page: Page)
    requires Coherent(t, l) && Enabled(t, ev) && (ev.Create? || ev.Tear?)
    ensures Excused(Next(t, ev), c, page)
  {
    assert Excused(t, c, page);
    if c in t.cpus && ev.Create? {
      assert Live(l.own, t.cpus[c].cr3);
      NewKeepsInv(t.s, l);
      assert SameLeaf(t.s.ram.mem, NewSpace(t.s).0.ram.mem, l.own, t.cpus[c].cr3, page);
    }
  }

  /** Setting accessed and dirty bits makes nothing stale and keeps the invariant. */
  lemma SetBitsHarmless(t: Smp, l: Ledger, ev: Event, c: Cpu, page: Page)
    requires Inv(t.s, l) && Enabled(t, ev) && ev.SetBits?
    ensures Inv(Next(t, ev).s, l) && Stale(Next(t, ev).s.ram.mem, c, page) == Stale(t.s.ram.mem, c, page)
  {
    var m := t.s.ram.mem;
    var r := t.cpus[ev.cpu].cr3;
    var m' := Touch(m, r, ev.page, ev.depth, ev.bits);
    TouchSimilar(m, r, ev.page, ev.depth, ev.bits);
    SimilarInv(t.s, Next(t, ev).s, l);
    SimilarLeaf(m, m', c.cr3, page);
  }

  lemma CpuExcused(t: Smp, l: Ledger, ev: Event, c: nat, page: Page)
    requires Coherent(t, l) && Enabled(t, ev) && !ev.Edit? && !ev.Create? && !ev.Tear? && !ev.SetBits?
    ensures Excused(Next(t, ev), c, page)
  {
    assert Excused(t, c, page);
  }

  lemma SetBitsExcused(t: Smp, l: Ledger, ev: Event, c: nat, page: Page)
    requires Coherent(t, l) && Enabled(t, ev) && ev.SetBits?
    ensures Excused(Next(t, ev), c, page)
  {
    assert Excused(t, c, page);
    if c in t.cpus {
      SetBitsHarmless(t, l, ev, t.cpus[c], page);
    }
  }

  lemma Cr3After(t: Smp, ev: Event, c: nat)
    requires Enabled(t, ev) && c in t.cpus
    ensures c in Next(t, ev).cpus
    ensures Next(t, ev).cpus[c].cr3 == if ev.Activate? && c == ev.cpu then RootOf(t.s, ev.h) else t.cpus[c].cr3
  {
  }

  lemma LedgerKeepsLive(t: Smp, l: Ledger, ev: Event, r: PhysAddr)
    requires Inv(t.s, l) && Enabled(t, ev) && Live(l.own, r)
    requires ev.Tear? && ev.h != KernelHandle ==> RootOf(t.s, ev.h) != r
    ensures Live(LedgerNext(t, l, ev).own, r)
  {
    match ev
    case Edit(_, op) => StepKeepsLive(t.s, l, op, r);
    case Create(_) => StepKeepsLive(t.s, l, New, r);
    case Tear(_, h) => StepKeepsLive(t.s, l, Destroy(h), r);
    case _ =>
  }

  lemma NextKeepsRoots(t: Smp, l: Ledger, ev: Event, c: nat)
    requires Inv(t.s, l) && Enabled(t, ev) && c in t.cpus && Live(l.own, t.cpus[c].cr3)
    ensures c in Next(t, ev).cpus && Live(LedgerNext(t, l, ev).own, Next(t, ev).cpus[c].cr3)
  {
    Cr3After(t, ev, c);
    LedgerKeepsLive(t, l, ev, t.cpus[c].cr3);
    if ev.Activate? {
      LiveHandleRoot(t.s, l, ev.h);
    }
  }

  /** Every step of every processor keeps stale bindings excused. */
  lemma NextKeepsCoherent(t: Smp, l: Ledger, ev: Event)
    requires Coherent(t, l) && Enabled(t, ev)
    ensures Coherent(Next(t, ev), LedgerNext(t, l, ev))
  {
    var t', l' := Next(t, ev), LedgerNext(t, l, ev);
    match ev {
      case Edit(_, op) => StepKeepsInv(t.s, l, op);
      case Create(_) => StepKeepsInv(t.s, l, New);
      case Tear(_, h) => StepKeepsInv(t.s, l, Destroy(h));
      case SetBits(c, page, _, _) => SetBitsHarmless(t, l, ev, t.cpus[c], page);
      case _ =>
    }
    forall c | c in t'.cpus ensures Live(l'.own, t'.cpus[c].cr3) {
      assert Live(l.own, t.cpus[c].cr3);
      NextKeepsRoots(t, l, ev, c);
    }
    forall c, page: Page ensures Excused(t', c, page) {
      if ev.Edit? {
        EditExcused(t, l, ev, c, page);
      } else if ev.Create? || ev.Tear? {
        SpaceExcused(t, l, ev, c, page);
      } else if ev.SetBits? {
        SetBitsExcused(t, l, ev, c, page);
      } else {
        CpuExcused(t, l, ev, c, page);
      }
    }
  }

  // ---- Runs -----------------------------------------------------------------

  ghost predicate EnabledRun(t: Smp, evs: seq<Event>)
    decreases |evs|
  {
    evs == [] || (Enabled(t, evs[0]) && EnabledRun(Next(t, evs[0]), evs[1..]))
  }

  ghost function RunEvents(t: Smp, evs: seq<Event>): Smp
    requires EnabledRun(t, evs)
    decreases |evs|
  {
    if evs == [] then t else RunEvents(Next(t, evs[0]), evs[1..])
  }

  ghost function LedgerEvents(t: Smp, l: Ledger, evs: seq<Event>): Ledger
    requires EnabledRun(t, evs)
    decreases |evs|
  {
    if evs == [] then l else LedgerEvents(Next(t, evs[0]), LedgerNext(t, l, evs[0]), evs[1..])
  }

  lemma {:induction false} RunKeepsCoherent(t: Smp, l: Ledger, evs: seq<Event>)
    requires Coherent(t, l) && EnabledRun(t, evs)
    ensures Coherent(RunEvents(t, evs), LedgerEvents(t, l, evs))
    decreases |evs|
  {
    if evs != [] {
      NextKeepsCoherent(t, l, evs[0]);
      RunKeepsCoherent(Next(t, evs[0]), LedgerNext(t, l, evs[0]), evs[1..]);
    }
  }

  /** In every state any run reaches, a page that owes no shootdown is stale only where one is pending. */
  lemma StaleOnlyIfOwed(t: Smp, l: Ledger, evs: seq<Event>, c: nat, page: Page)
    requires Coherent(t, l) && EnabledRun(t, evs)
    requires var e := RunEvents(t, evs); c in e.cpus && page !in e.owed
    ensures var e := RunEvents(t, evs);
            TLB_SHOOTDOWN_VEC in e.cpus[c].pending || !Stale(e.s.ram.mem, e.cpus[c], page)
  {
    RunKeepsCoherent(t, l, evs);
    assert Excused(RunEvents(t, evs), c, page);
  }

  /** With the APIC up this step sends a shootdown that covers the page. */
  predicate Shoots(ev: Event, page: Page) {
    ev.ShootAll? || (ev.ShootPage? && IsCanonical(ev.v) && PageOf(ev.v) == page)
  }

  /** This step takes a binding of the page away or changes it, if it succeeds. */
  predicate Revokes(ev: Event, page: Page) {
    ev.Edit? && (ev.op.Unmap? || ev.op.Protect?) && PageOf(ev.op.v) == page
  }

  lemma {:induction false} NothingNewOwed(t: Smp, evs: seq<Event>, page: Page)
    requires EnabledRun(t, evs) && page !in t.owed
    requires forall k | 0 <= k < |evs| :: !Revokes(evs[k], page)
    ensures page !in RunEvents(t, evs).owed
    decreases |evs|
  {
    if evs != [] {
      assert !Revokes(evs[0], page);
      NothingNewOwed(Next(t, evs[0]), evs[1..], page);
    }
  }

  lemma {:induction false} SentNotOwed(t: Smp, evs: seq<Event>, n: nat, page: Page)
    requires EnabledRun(t, evs) && t.apicMode != APIC_MODE_NONE && n < |evs| && Shoots(evs[n], page)
    requires forall k | n < k < |evs| :: !Revokes(evs[k], page)
    ensures page !in RunEvents(t, evs).owed
    decreases |evs|
  {
    var t1 := Next(t, evs[0]);
    if n == 0 {
      NothingNewOwed(t1, evs[1..], page);
    } else {
      SentNotOwed(t1, evs[1..], n - 1, page);
    }
  }

  /**
   Shootdown safety.  Take any interleaving of processors with the APIC up, in which
   some step sends a shootdown of the page and no later step unmaps or protects the
   page.  At its end a processor caches a stale non-GLOBAL binding of the page only
   while a shootdown interrupt is pending there; with none pending, nothing is stale.
   */
  lemma ShootdownSafety(t: Smp, l: Ledger, evs: seq<Event>, n: nat, c: nat, page: Page)
    requires Coherent(t, l) && EnabledRun(t, evs) && t.apicMode != APIC_MODE_NONE
    requires n < |evs| && Shoots(evs[n], page) && forall k | n < k < |evs| :: !Revokes(evs[k], page)
    requires c in RunEvents(t, evs).cpus
    ensures var e := RunEvents(t, evs);
            TLB_SHOOTDOWN_VEC in e.cpus[c].pending || !Stale(e.s.ram.mem, e.cpus[c], page)
  {
    SentNotOwed(t, evs, n, page);
    StaleOnlyIfOwed(t, l, evs, c, page);
  }

  /** Processors that run on the kernel space with empty caches are coherent. */
  lemma StartIsCoherent(t: Smp, l: Ledger)
    requires Inv(t.s, l)
    requires forall c | c in t.cpus :: t.cpus[c].cr3 == t.s.kernel && t.cpus[c].tlb == map[]
    ensures Coherent(t, l)
  {
    forall c, page: Page ensures Excused(t, c, page) {
      if c in t.cpus {
        assert t.cpus[c].tlb == map[];
      }
    }
  }

  // ---- What a step does to caches and interrupts, exactly -------------------

  /** This step invalidates the page on the processor that takes it. */
  predicate Invalidates(t: Smp, ev: Event, page: Page) {
    || (ev.Edit? && (ev.op.Map? || ev.op.Unmap? || ev.op.Protect?) && ResultOf(t.s, ev.op).Ok? && PageOf(ev.op.v) == page)
    || (ev.ShootPage? && IsCanonical(ev.v) && PageOf(ev.v) == page)
  }

  /**
   After a successful map, unmap or protect, and after a shootdown of a canonical
   address, the processor caches nothing for the page, GLOBAL or not; every other
   binding it caches stays.
   */
  lemma LocalFlushExact(t: Smp, ev: Event, page: Page, q: Page)
    requires Enabled(t, ev) && Invalidates(t, ev, page)
    ensures var c, c' := t.cpus[ev.cpu], Next(t, ev).cpus[ev.cpu];
            && c'.cr3 == c.cr3
            && (q in c'.tlb <==> q in c.tlb && q != page)
            && (q in c'.tlb ==> c'.tlb[q] == c.tlb[q])
  {
  }

  /** An edit that fails invalidates nothing. */
  lemma FailureFlushesNothing(t: Smp, ev: Event)
    requires Enabled(t, ev) && ev.Edit? && ResultOf(t.s, ev.op).Err?
    ensures Next(t, ev).cpus == t.cpus
  {
  }

  /** Loading CR3, on a switch, in a full shootdown or in the handler of vector 0xe1, leaves exactly the GLOBAL bindings. */
  lemma ReloadExact(t: Smp, ev: Event, q: Page)
    requires Enabled(t, ev) && (ev.Activate? || ev.ShootAll? || (ev.Deliver? && ev.vec == 0xe1))
    ensures var c, c' := t.cpus[ev.cpu], Next(t, ev).cpus[ev.cpu];
            && c'.cr3 == (if ev.Activate? then RootOf(t.s, ev.h) else c.cr3)
            && (q in c'.tlb <==> q in c.tlb && c.tlb[q].attr.global)
            && (q in c'.tlb ==> c'.tlb[q] == c.tlb[q])
  {
  }

  /**
   Interrupts: a shootdown of either kind leaves vector 0xe1 pending on all processors
   but the sender, unless the APIC is not initialised, in which case it is silent;
   otherwise only raising and delivery change what is pending, on their own processor.
   */
  lemma InterruptsExact(t: Smp, ev: Event, c: nat)
    requires Enabled(t, ev) && c in t.cpus
    ensures c in Next(t, ev).cpus
    ensures Next(t, ev).cpus[c].pending ==
            if (ev.ShootPage? || ev.ShootAll?) && c != ev.cpu && t.apicMode != 0 then t.cpus[c].pending + {0xe1}
            else if ev.Raise? && c == ev.cpu then t.cpus[c].pending + {ev.vec}
            else if ev.Deliver? && c == ev.cpu then t.cpus[c].pending - {ev.vec}
            else t.cpus[c].pending
  {
  }

  /** Delivery of any other vector leaves cache and active root alone. */
  lemma OtherVectorsFlushNothing(t: Smp, c: nat, vec: bv8)
    requires Enabled(t, Deliver(c, vec)) && vec != 0xe1
    ensures var t' := Next(t, Deliver(c, vec)); t'.cpus[c].tlb == t.cpus[c].tlb && t'.cpus[c].cr3 == t.cpus[c].cr3
  {
  }

  /** No step touches the cache or the active root of another processor. */
  lemma OthersKeepCaches(t: Smp, ev: Event, c: nat)
    requires Enabled(t, ev) && c in t.cpus && c != ev.cpu
    ensures c in Next(t, ev).cpus && Next(t, ev).cpus[c].tlb == t.cpus[c].tlb && Next(t, ev).cpus[c].cr3 == t.cpus[c].cr3
  {
  }

  // ---- Without a shootdown ---------------------------------------------------

  /** What a successful unmap or protect does to the walk of any page from any live root. */
  lemma RevokedLeaf(m: Memory, g: Ownership, r: PhysAddr, page: Page, attr: Attr, r': PhysAddr, q: Page)
    requires Tree(m, g) && Live(g, r) && Live(g, r') && SmallPath(m, r, page) && Leaf(m, r, page).Some? && attr.present
    ensures var hit := q == page && SharesTable(m, r, r', page);
            && UnmapPage(m, r, page).1.Ok? && ProtectPage(m, r, page, attr).1.Ok?
            && Leaf(UnmapPage(m, r, page).0, r', q) == (if hit then None else Leaf(m, r', q))
            && Leaf(ProtectPage(m, r, page, attr).0, r', q) ==
               (if hit then Some(Entry(Leaf(m, r, page).value.target, attr)) else Leaf(m, r', q))
  {
    WalkIsLeaf(m, r, page);
    LeafOfView(m, r, page);
    LeafWriteOnLeaf(m, g, r, page, ZERO_ENTRY, r', q);
    LeafWriteOnLeaf(m, g, r, page, Entry(Leaf(m, r, page).value.target, attr), r', q);
  }

  /** The arguments pass, and the page is bound: the edit is going to succeed. */
  predicate Bound(s: State, h: Handle, v: bv64) {
    Aligned4K(v) && IsCanonical(v) && Leaf(s.ram.mem, RootOf(s, h), PageOf(v)).Some?
  }

  /** Processor `c` reaches the table that an edit of this page of `h` writes to. */
  predicate Reaches(t: Smp, c: nat, h: Handle, page: Page)
    requires c in t.cpus
  {
    SharesTable(t.s.ram.mem, RootOf(t.s, h), t.cpus[c].cr3, page)
  }

  /** The processor caches a binding of the page that a CR3 reload would drop. */
  predicate Caches(c: Cpu, page: Page) {
    page in c.tlb && !c.tlb[page].attr.global
  }

  /**
   An unmap without a shootdown, on every other processor, whatever space it runs:
   its cache is as it was, and what becomes stale is the page itself where the
   processor caches it and shares the table.
   */
  lemma UnmapLeavesStale(t: Smp, l: Ledger, me: nat, c: nat, h: Handle, v: bv64, q: Page)
    requires Inv(t.s, l) && Enabled(t, Edit(me, Unmap(h, v))) && Bound(t.s, h, v)
    requires c in t.cpus && c != me && Live(l.own, t.cpus[c].cr3)
    ensures var t' := Next(t, Edit(me, Unmap(h, v)));
            && t'.cpus[c] == t.cpus[c] && Unmap4K(t.s, h, v).1.Ok?
            && (Stale(t'.s.ram.mem, t.cpus[c], q) <==>
                Stale(t.s.ram.mem, t.cpus[c], q) || (q == PageOf(v) && Caches(t.cpus[c], q) && Reaches(t, c, h, q)))
  {
    LiveHandleRoot(t.s, l, h);
    RevokedLeaf(t.s.ram.mem, l.own, RootOf(t.s, h), PageOf(v), FlagsToAttr(0, false), t.cpus[c].cr3, q);
  }

  /**
   A protect without a shootdown, on every other processor: where it shares the table,
   the page is stale exactly if the cached binding is not the new one; nothing else
   changes.
   */
  lemma ProtectLeavesStale(t: Smp, l: Ledger, me: nat, c: nat, h: Handle, v: bv64, flags: MapFlags, q: Page)
    requires Inv(t.s, l) && Enabled(t, Edit(me, Protect(h, v, flags))) && Bound(t.s, h, v)
    requires c in t.cpus && c != me && Live(l.own, t.cpus[c].cr3)
    ensures var t' := Next(t, Edit(me, Protect(h, v, flags)));
            var now := Entry(Leaf(t.s.ram.mem, RootOf(t.s, h), PageOf(v)).value.target, FlagsToAttr(flags, t.s.nxe));
            && t'.cpus[c] == t.cpus[c] && Protect4K(t.s, h, v, flags).1.Ok?
            && (Stale(t'.s.ram.mem, t.cpus[c], q) <==>
                if q == PageOf(v) && Reaches(t, c, h, q) then Caches(t.cpus[c], q) && !SameButRest(now, t.cpus[c].tlb[q])
                else Stale(t.s.ram.mem, t.cpus[c], q))
  {
    LiveHandleRoot(t.s, l, h);
    RevokedLeaf(t.s.ram.mem, l.own, RootOf(t.s, h), PageOf(v), FlagsToAttr(flags, t.s.nxe), t.cpus[c].cr3, q);
  }

  /** The page is bound in `h` without GLOBAL, and processor `c` holds nothing stale for it. */
  predicate Cacheable(t: Smp, c: nat, h: Handle, v: bv64) {
    && c in t.cpus && Bound(t.s, h, v) && !Leaf(t.s.ram.mem, RootOf(t.s, h), PageOf(v)).value.attr.global
    && !Stale(t.s.ram.mem, t.cpus[c], PageOf(v))
  }

  /** A walk to the page leaves the processor with the binding if it shares the table, and with nothing stale. */
  lemma FillCaches(t: Smp, c: nat, h: Handle, v: bv64)
    requires Cacheable(t, c, h, v)
    ensures var t1 := Next(t, Fill(c, PageOf(v)));
            && t1.s == t.s && t1.cpus.Keys == t.cpus.Keys && t1.cpus[c].cr3 == t.cpus[c].cr3
            && t1.cpus[c].pending == t.cpus[c].pending && !Stale(t.s.ram.mem, t1.cpus[c], PageOf(v))
            && (Reaches(t, c, h, PageOf(v)) ==>
                  PageOf(v) in t1.cpus[c].tlb && Some(t1.cpus[c].tlb[PageOf(v)]) == Leaf(t.s.ram.mem, RootOf(t.s, h), PageOf(v)))
  {
  }

  /**
   The run that the kernel's own calls allow, none of which sends a shootdown: a
   processor walks to a page, then another unmaps it.  The first is left with a stale
   binding, and no interrupt on the way, if and only if the space it runs shares the
   table of the page.
   */
  lemma StaleWithoutShootdown(t: Smp, l: Ledger, me: nat, c: nat, h: Handle, v: bv64)
    requires Coherent(t, l) && Enabled(t, Edit(me, Unmap(h, v))) && Cacheable(t, c, h, v) && c != me
    ensures var evs := [Fill(c, PageOf(v)), Edit(me, Unmap(h, v))];
            && EnabledRun(t, evs)
            && var e := RunEvents(t, evs);
            && c in e.cpus && e.cpus[c].pending == t.cpus[c].pending
            && (Stale(e.s.ram.mem, e.cpus[c], PageOf(v)) <==> Reaches(t, c, h, PageOf(v)))
  {
    var fill, edit := Fill(c, PageOf(v)), Edit(me, Unmap(h, v));
    var t1 := Next(t, fill);
    assert Live(l.own, t.cpus[c].cr3);
    FillCaches(t, c, h, v);
    UnmapLeavesStale(t1, l, me, c, h, v, PageOf(v));
    TwoEvents(t, fill, edit);
  }

  /** The same for protect: stale if and only if the table is shared and the flags change something. */
  lemma StaleAfterProtect(t: Smp, l: Ledger, me: nat, c: nat, h: Handle, v: bv64, flags: MapFlags)
    requires Coherent(t, l) && Enabled(t, Edit(me, Protect(h, v, flags))) && Cacheable(t, c, h, v) && c != me
    ensures var evs := [Fill(c, PageOf(v)), Edit(me, Protect(h, v, flags))];
            var was := Leaf(t.s.ram.mem, RootOf(t.s, h), PageOf(v)).value;
            && EnabledRun(t, evs)
            && var e := RunEvents(t, evs);
            && c in e.cpus && e.cpus[c].pending == t.cpus[c].pending
            && (Stale(e.s.ram.mem, e.cpus[c], PageOf(v)) <==>
                Reaches(t, c, h, PageOf(v)) && was.attr.(rest := 0) != FlagsToAttr(flags, t.s.nxe))
  {
    var fill, edit := Fill(c, PageOf(v)), Edit(me, Protect(h, v, flags));
    var t1 := Next(t, fill);
    assert Live(l.own, t.cpus[c].cr3);
    FillCaches(t, c, h, v);
    ProtectLeavesStale(t1, l, me, c, h, v, flags, PageOf(v));
    TwoEvents(t, fill, edit);
  }

  lemma TwoEvents(t: Smp, a: Event, b: Event)
    requires Enabled(t, a) && Enabled(Next(t, a), b)
    ensures EnabledRun(t, [a, b]) && RunEvents(t, [a, b]) == Next(Next(t, a), b)
  {
    FirstEvent(Next(t, a), b, []);
    FirstEvent(t, a, [b]);
    assert [b] + [] == [b] && [a] + [b] == [a, b];
  }

  lemma FirstEvent(t: Smp, ev: Event, evs: seq<Event>)
    requires Enabled(t, ev) && EnabledRun(Next(t, ev), evs)
    ensures EnabledRun(t, [ev] + evs) && RunEvents(t, [ev] + evs) == RunEvents(Next(t, ev), evs)
  {
    assert ([ev] + evs)[1..] == evs;
  }

  // ---- GLOBAL bindings ------------------------------------------------------

  /**
   A shootdown does not reach GLOBAL bindings.  After unmap, shootdown and its delivery
   nothing is pending and the page is unbound, and a processor sharing the table still
   caches it if and only if it cached it GLOBAL before.
   */
  lemma OnlyGlobalSurvives(t: Smp, l: Ledger, me: nat, c: nat, h: Handle, v: bv64)
    requires Inv(t.s, l) && Enabled(t, Edit(me, Unmap(h, v))) && Bound(t.s, h, v) && t.apicMode != APIC_MODE_NONE
    requires c in t.cpus && c != me && Live(l.own, t.cpus[c].cr3) && Reaches(t, c, h, PageOf(v))
    ensures var t1 := Next(t, Edit(me, Unmap(h, v)));
            var t2 := Next(t1, ShootPage(me, v));
            && Enabled(t2, Deliver(c, TLB_SHOOTDOWN_VEC))
            && var t3 := Next(t2, Deliver(c, TLB_SHOOTDOWN_VEC));
            && TLB_SHOOTDOWN_VEC !in t3.cpus[c].pending && Leaf(t3.s.ram.mem, t3.cpus[c].cr3, PageOf(v)).None?
            && (PageOf(v) in t3.cpus[c].tlb <==> PageOf(v) in t.cpus[c].tlb && t.cpus[c].tlb[PageOf(v)].attr.global)
  {
    LiveHandleRoot(t.s, l, h);
    RevokedLeaf(t.s.ram.mem, l.own, RootOf(t.s, h), PageOf(v), FlagsToAttr(0, false), t.cpus[c].cr3, PageOf(v));
    var t1 := Next(t, Edit(me, Unmap(h, v)));
    assert t1.cpus[c] == t.cpus[c];
    ShootAndDeliver(t1, me, v, c, PageOf(v));
  }

  /** After a shootdown and its delivery the other processor caches exactly the GLOBAL bindings it cached before. */
  lemma ShootAndDeliver(t: Smp, me: nat, v: bv64, c: nat, page: Page)
    requires me in t.cpus && c in t.cpus && c != me && t.apicMode != APIC_MODE_NONE
    ensures var t1 := Next(t, ShootPage(me, v));
            && Enabled(t1, Deliver(c, TLB_SHOOTDOWN_VEC))
            && var t2 := Next(t1, Deliver(c, TLB_SHOOTDOWN_VEC));
            && t2.s == t.s && t2.cpus[c].cr3 == t.cpus[c].cr3 && TLB_SHOOTDOWN_VEC !in t2.cpus[c].pending
            && (page in t2.cpus[c].tlb <==> page in t.cpus[c].tlb && t.cpus[c].tlb[page].attr.global)
            && (page in t2.cpus[c].tlb ==> t2.cpus[c].tlb[page] == t.cpus[c].tlb[page])
  {
  }

  // ---- One processor --------------------------------------------------------

  predicate FreshAt(t: Smp, c: nat, page: Page) {
    c in t.cpus ==> !Stale(t.s.ram.mem, t.cpus[c], page)
  }

  /** Nothing non-GLOBAL that this processor caches is stale. */
  ghost predicate Fresh(t: Smp, c: nat) {
    forall page: Page :: FreshAt(t, c, page)
  }

  /** What a processor does itself never leaves it a stale binding, shootdown or not. */
  lemma OwnStepsStayFresh(t: Smp, l: Ledger, ev: Event, c: nat)
    requires Coherent(t, l) && Enabled(t, ev) && Fresh(t, c) && ev.cpu == c
    ensures Fresh(Next(t, ev), c)
  {
    forall page: Page ensures FreshAt(Next(t, ev), c, page) {
      assert FreshAt(t, c, page) && Live(l.own, t.cpus[c].cr3);
      if ev.Edit? {
        EditChangesOnePage(t.s, l, ev.op, t.cpus[c].cr3, page);
      } else if ev.Create? {
        NewKeepsInv(t.s, l);
        assert SameLeaf(t.s.ram.mem, NewSpace(t.s).0.ram.mem, l.own, t.cpus[c].cr3, page);
      } else if ev.SetBits? {
        SetBitsHarmless(t, l, ev, t.cpus[c], page);
      }
    }
  }

  /**
   Coherence on a uniprocessor: after every operation of every run each cached
   non-GLOBAL binding is the one the active tables hold.
   */
  lemma {:induction false} UniprocessorCoherence(t: Smp, l: Ledger, evs: seq<Event>, c: nat)
    requires Coherent(t, l) && EnabledRun(t, evs) && t.cpus.Keys == {c} && Fresh(t, c)
    ensures Fresh(RunEvents(t, evs), c)
    decreases |evs|
  {
    if evs != [] {
      var t1 := Next(t, evs[0]);
      OwnStepsStayFresh(t, l, evs[0], c);
      NextKeepsCoherent(t, l, evs[0]);
      assert t1.cpus.Keys == {c};
      UniprocessorCoherence(t1, LedgerNext(t, l, evs[0]), evs[1..], c);
    }
  }

  // ---- GLOBAL bindings included ---------------------------------------------

  predicate CurrentAt(m: Memory, c: Cpu, page: Page) {
    page in c.tlb ==> Agrees(Leaf(m, c.cr3, page), c.tlb[page])
  }

  /** Everything this processor caches, GLOBAL or not, is what its tables hold. */
  ghost predicate UpToDate(t: Smp, c: nat) {
    forall page: Page :: c in t.cpus ==> CurrentAt(t.s.ram.mem, t.cpus[c], page)
  }

  /** Every GLOBAL binding the processor caches is bound alike in the space it switches to. */
  ghost predicate CarriesOver(t: Smp, c: nat, r: PhysAddr)
    requires c in t.cpus
  {
    forall page: Page :: page in t.cpus[c].tlb && t.cpus[c].tlb[page].attr.global ==>
                           CurrentAt(t.s.ram.mem, t.cpus[c].(cr3 := r), page)
  }

  /** After a switch the processor is up to date if and only if its GLOBAL bindings carry over. */
  lemma SwitchUpToDateIff(t: Smp, c: nat, h: Handle)
    requires Enabled(t, Activate(c, h))
    ensures UpToDate(Next(t, Activate(c, h)), c) <==> CarriesOver(t, c, RootOf(t.s, h))
  {
    var t', r := Next(t, Activate(c, h)), RootOf(t.s, h);
    forall page: Page
      ensures CurrentAt(t'.s.ram.mem, t'.cpus[c], page) <==>
              (page in t.cpus[c].tlb && t.cpus[c].tlb[page].attr.global ==> CurrentAt(t.s.ram.mem, t.cpus[c].(cr3 := r), page))
    {
      ReloadExact(t, Activate(c, h), page);
    }
    if UpToDate(t', c) {
      forall page: Page | page in t.cpus[c].tlb && t.cpus[c].tlb[page].attr.global
        ensures CurrentAt(t.s.ram.mem, t.cpus[c].(cr3 := r), page)
      {
        assert CurrentAt(t'.s.ram.mem, t'.cpus[c], page);
      }
    }
  }

  /** What may happen while a processor is to stay up to date: only it edits tables, and it switches only where GLOBAL bindings carry over. */
  ghost predicate Careful(t: Smp, ev: Event, c: nat) {
    && (ev.Edit? ==> ev.cpu == c)
    && (ev.Activate? && ev.cpu == c && c in t.cpus ==> CarriesOver(t, c, RootOf(t.s, ev.h)))
  }

  /** The tables seen from the active root, after any step but an edit, are the same but for accessed and dirty bits. */
  lemma LeafUnlessEdited(t: Smp, l: Ledger, ev: Event, r: PhysAddr, page: Page, e: Entry)
    requires Coherent(t, l) && Enabled(t, ev) && !ev.Edit? && Live(l.own, r) && Agrees(Leaf(t.s.ram.mem, r, page), e)
    ensures Agrees(Leaf(Next(t, ev).s.ram.mem, r, page), e)
  {
    if ev.Create? {
      NewKeepsInv(t.s, l);
      assert SameLeaf(t.s.ram.mem, NewSpace(t.s).0.ram.mem, l.own, r, page);
    } else if ev.SetBits? {
      var m, a := t.s.ram.mem, t.cpus[ev.cpu].cr3;
      TouchSimilar(m, a, ev.page, ev.depth, ev.bits);
      SimilarLeaf(m, Touch(m, a, ev.page, ev.depth, ev.bits), r, page);
    }
  }

  /** What is cached after a step other than a fill or a switch was cached before. */
  lemma CachedBefore(t: Smp, ev: Event, c: nat, page: Page)
    requires Enabled(t, ev) && c in t.cpus && !(ev.Fill? && ev.cpu == c) && !(ev.Activate? && ev.cpu == c)
    ensures var c' := Next(t, ev).cpus[c];
            c'.cr3 == t.cpus[c].cr3 && (page in c'.tlb ==> page in t.cpus[c].tlb && c'.tlb[page] == t.cpus[c].tlb[page])
  {
    if c != ev.cpu {
      OthersKeepCaches(t, ev, c);
    } else if ev.Edit? {
      EditOnCpu(t, ev, c, page);
    } else if ev.ShootPage? || ev.ShootAll? {
      ShooterKeeps(t, ev, page);
    }
  }

  lemma ShooterKeeps(t: Smp, ev: Event, page: Page)
    requires Enabled(t, ev) && (ev.ShootPage? || ev.ShootAll?)
    ensures var c, c' := t.cpus[ev.cpu], Next(t, ev).cpus[ev.cpu];
            c'.cr3 == c.cr3 && (page in c'.tlb ==> page in c.tlb && c'.tlb[page] == c.tlb[page])
  {
  }

  lemma EditKeepsCurrent(t: Smp, l: Ledger, ev: Event, c: nat, page: Page)
    requires Coherent(t, l) && Enabled(t, ev) && ev.Edit? && ev.cpu == c && c in t.cpus && CurrentAt(t.s.ram.mem, t.cpus[c], page)
    ensures CurrentAt(Next(t, ev).s.ram.mem, Next(t, ev).cpus[c], page)
  {
    assert Live(l.own, t.cpus[c].cr3);
    EditChangesOnePage(t.s, l, ev.op, t.cpus[c].cr3, page);
    EditOnCpu(t, ev, c, page);
    if ResultOf(t.s, ev.op).Ok? && PageOf(ev.op.v) == page {
      LocalFlushExact(t, ev, page, page);
    }
  }

  lemma FillKeepsCurrent(t: Smp, c: nat, q: Page, page: Page)
    requires Enabled(t, Fill(c, q)) && CurrentAt(t.s.ram.mem, t.cpus[c], page)
    ensures CurrentAt(Next(t, Fill(c, q)).s.ram.mem, Next(t, Fill(c, q)).cpus[c], page)
  {
  }

  lemma CarefulStepsUpToDate(t: Smp, l: Ledger, ev: Event, c: nat)
    requires Coherent(t, l) && Enabled(t, ev) && c in t.cpus && UpToDate(t, c) && Careful(t, ev, c)
    ensures UpToDate(Next(t, ev), c)
  {
    if ev.Activate? && ev.cpu == c {
      SwitchUpToDateIff(t, c, ev.h);
    } else {
      forall page: Page ensures CurrentAt(Next(t, ev).s.ram.mem, Next(t, ev).cpus[c], page) {
        assert CurrentAt(t.s.ram.mem, t.cpus[c], page) && Live(l.own, t.cpus[c].cr3);
        if ev.Edit? {
          EditKeepsCurrent(t, l, ev, c, page);
        } else if ev.Fill? && ev.cpu == c {
          FillKeepsCurrent(t, c, ev.page, page);
        } else {
          CachedBefore(t, ev, c, page);
          if page in t.cpus[c].tlb {
            LeafUnlessEdited(t, l, ev, t.cpus[c].cr3, page, t.cpus[c].tlb[page]);
          }
        }
      }
    }
  }

  ghost predicate CarefulRun(t: Smp, evs: seq<Event>, c: nat)
    requires EnabledRun(t, evs)
    decreases |evs|
  {
    evs == [] || (Careful(t, evs[0], c) && CarefulRun(Next(t, evs[0]), evs[1..], c))
  }

  /**
   Coherence for GLOBAL bindings too: over every run in which one processor makes all
   edits, in whatever spaces, and switches only where its GLOBAL bindings carry over,
   everything it caches is what its tables hold, whatever the others do.
   */
  lemma {:induction false} GlobalCoherence(t: Smp, l: Ledger, evs: seq<Event>, c: nat)
    requires Coherent(t, l) && EnabledRun(t, evs) && c in t.cpus && UpToDate(t, c) && CarefulRun(t, evs, c)
    ensures UpToDate(RunEvents(t, evs), c)
    decreases |evs|
  {
    if evs != [] {
      CarefulStepsUpToDate(t, l, evs[0], c);
      NextKeepsCoherent(t, l, evs[0]);
      InterruptsExact(t, evs[0], c);
      GlobalCoherence(Next(t, evs[0]), LedgerNext(t, l, evs[0]), evs[1..], c);
    }
  }
}
