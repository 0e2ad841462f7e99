/**
 The fixed table of address-space slots and the handles that point into it.

 A handle is the address of a slot's `space` field, so it is named here by the
 index of its slot; the kernel space has a handle of its own.
 */
module Slots {
  import opened Wrappers
  import opened Pte

  const MAX_ADDRESS_SPACES: nat := 64

  datatype Handle = DanglingHandle | KernelHandle | SlotHandle(index: nat)

  datatype Slot = Slot(used: bool, root: PhysAddr, handle: Handle)

  const EMPTY_SLOT := Slot(false, PhysAddr(0), DanglingHandle)

  /** The first unused slot from `i` on. */
  function FirstUnused(slots: seq<Slot>, i: nat): (k: Option<nat>)
    requires i <= |slots|
    ensures k.Some? ==> i <= k.value < |slots| && !slots[k.value].used && forall j :: i <= j < k.value ==> slots[j].used
    ensures k.None? ==> forall j :: i <= j < |slots| ==> slots[j].used
    decreases |slots| - i
  {
    if i == |slots| then None
    else if !slots[i].used then Some(i)
    else FirstUnused(slots, i + 1)
  }

  /** The first used slot from `i` on whose handle is `h`. */
  function SlotOf(slots: seq<Slot>, h: Handle, i: nat): (k: Option<nat>)
    requires i <= |slots|
    ensures k.Some? ==> i <= k.value < |slots| && slots[k.value].used && slots[k.value].handle == h
                        && forall j :: i <= j < k.value ==> !(slots[j].used && slots[j].handle == h)
    ensures k.None? ==> forall j :: i <= j < |slots| ==> !(slots[j].used && slots[j].handle == h)
    decreases |slots| - i
  {
    if i == |slots| then None
    else if slots[i].used && slots[i].handle == h then Some(i)
    else SlotOf(slots, h, i + 1)
  }

  function AllocSlot(slots: seq<Slot>, root: PhysAddr): (seq<Slot>, Result<Handle>) {
    match FirstUnused(slots, 0)
    case None => (slots, Err(OutOfMemory))
    case Some(i) => (slots[i := Slot(true, root, SlotHandle(i))], Ok(SlotHandle(i)))
  }

  function FreeSlot(slots: seq<Slot>, h: Handle): seq<Slot> {
    match SlotOf(slots, h, 0)
    case None => slots
    case Some(i) => slots[i := slots[i].(used := false, root := PhysAddr(0))]
  }

  /** A used slot carries the handle that points at it. */
  predicate SlotsOk(slots: seq<Slot>) {
    && |slots| == MAX_ADDRESS_SPACES
    && forall i :: 0 <= i < |slots| && slots[i].used ==> slots[i].handle == SlotHandle(i)
  }

  predicate LiveSlot(slots: seq<Slot>, h: Handle) {
    h.SlotHandle? && h.index < |slots| && slots[h.index].used
  }

  // ---- Runs of slot allocation and release ----------------------------------

  datatype SlotOp = Acquire(root: PhysAddr) | Release(handle: Handle)

  function SlotStep(slots: seq<Slot>, op: SlotOp): seq<Slot> {
    match op
    case Acquire(root) => AllocSlot(slots, root).0
    case Release(h) => FreeSlot(slots, h)
  }

  function SlotRun(slots: seq<Slot>, ops: seq<SlotOp>): seq<Slot> {
    if ops == [] then slots else SlotStep(SlotRun(slots, ops[..|ops| - 1]), ops[|ops| - 1])
  }

  /** Releasing a live handle frees its own slot and no other. */
  lemma FreeSlotExact(slots: seq<Slot>, h: Handle)
    requires SlotsOk(slots) && LiveSlot(slots, h)
    ensures FreeSlot(slots, h) == slots[h.index := Slot(false, PhysAddr(0), h)]
  {
  }

  /** Allocation fails exactly when all 64 slots are live, and otherwise returns a handle nobody holds. */
  lemma AllocSlotExact(slots: seq<Slot>, root: PhysAddr)
    requires SlotsOk(slots)
    ensures var (slots', h) := AllocSlot(slots, root);
            && SlotsOk(slots')
            && (h.Err? <==> forall i :: 0 <= i < 64 ==> LiveSlot(slots, SlotHandle(i)))
            && (h.Err? ==> slots' == slots && h.error == OutOfMemory)
            && (h.Ok? ==> !LiveSlot(slots, h.value) && LiveSlot(slots', h.value) && slots'[h.value.index].root == root
                          && forall g :: g != h.value ==> LiveSlot(slots', g) == LiveSlot(slots, g))
  {
  }

  /**
   Over every run that does not release it, a live handle stays live and keeps
   resolving to the root it was created with, whatever happens to the other slots.
   Live handles are told apart by the slot they name.
   */
  lemma {:induction false} HandleStable(slots: seq<Slot>, ops: seq<SlotOp>, h: Handle)
    requires SlotsOk(slots) && LiveSlot(slots, h) && Release(h) !in ops
    ensures var end := SlotRun(slots, ops);
            SlotsOk(end) && LiveSlot(end, h) && end[h.index].root == slots[h.index].root
    decreases |ops|
  {
    if ops != [] {
      var init, op := ops[..|ops| - 1], ops[|ops| - 1];
      HandleStable(slots, init, h);
      var mid := SlotRun(slots, init);
      match op
      case Acquire(root) => AllocSlotExact(mid, root);
      case Release(g) =>
        assert g != h;
        if SlotOf(mid, g, 0).Some? {
          assert mid[SlotOf(mid, g, 0).value].handle == g;
        }
    }
  }
}
