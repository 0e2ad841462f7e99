/**
 The cursor of the boot frame allocator over the memory map, in 64-bit arithmetic
 with its wrap-around.

 `Pending` lists the frames a cursor is still going to hand out.  `NextIsHead` says
 that `next_from_map` hands out exactly that list, and `PendingExact` which frames of
 the memory map are on it.
 */
module FrameCursor {
  import opened Wrappers
  import opened AddressBits
  import opened FrameSupply

  datatype MemType = Reserved | Usable | AcpiReclaimable | AcpiNvs | Mmio | BadMemory | BootloaderReclaimable | KernelAndModules

  datatype MemMapEntry = MemMapEntry(base: u64, len: u64, memType: MemType)

  const PAGE: nat := 4096
  /** The last page of the 64-bit address space. */
  const LAST_PAGE: nat := TWO_64 - PAGE

  predicate IsUsable(t: MemType) {
    t == Usable || t == BootloaderReclaimable
  }

  /** The kinds of memory that page tables may be put in. */
  predicate Offered(t: MemType) {
    match t
    case Usable => true
    case BootloaderReclaimable => true
    case Reserved => false
    case AcpiReclaimable => false
    case AcpiNvs => false
    case Mmio => false
    case BadMemory => false
    case KernelAndModules => false
  }

  /** Round up to a page boundary, wrapping at 2^64. */
  function AlignUp(value: u64): u64 {
    (value + PAGE - 1) % TWO_64 / PAGE * PAGE
  }

  predicate Aligned(a: nat) {
    a % PAGE == 0
  }

  datatype Cursor = Cursor(entries: seq<MemMapEntry>, entry: nat, addr: u64)

  /** The first address the cursor looks at in an entry. */
  function FirstAddr(e: MemMapEntry, addr: u64): u64 {
    AlignUp(if addr < e.base then e.base else addr)
  }

  /** `next_from_map`, one entry at a time; a sum that does not fit 64 bits gives up on the spot. */
  function Next(c: Cursor): (Cursor, Option<u64>)
    decreases |c.entries| - c.entry
  {
    if c.entry >= |c.entries| then (c, None)
    else
      var e := c.entries[c.entry];
      if !IsUsable(e.memType) then Next(c.(entry := c.entry + 1, addr := 0))
      else if e.base + e.len >= TWO_64 then (c, None)
      else
        var addr := FirstAddr(e, c.addr);
        if addr + PAGE >= TWO_64 then (c, None)
        else if addr + PAGE > e.base + e.len then Next(c.(entry := c.entry + 1, addr := 0))
        else (c.(addr := addr + PAGE), Some(addr))
  }

  // ---- The list of frames to come -------------------------------------------

  /** The page frames from `addr` on that end at or before `end`. */
  function FramesFrom(addr: nat, end: nat): seq<nat>
    decreases end - addr
  {
    if addr + PAGE > end then [] else [addr] + FramesFrom(addr + PAGE, end)
  }

  /** The cursor cannot leave this entry: one of the sums in the loop does not fit 64 bits. */
  predicate Blocks(e: MemMapEntry) {
    Offered(e.memType) && (e.base > LAST_PAGE - PAGE || e.base + e.len >= LAST_PAGE)
  }

  /** Rounding up the base of this entry wraps to 0. */
  predicate Wraps(e: MemMapEntry) {
    Offered(e.memType) && e.base + e.len < TWO_64 && e.base > LAST_PAGE
  }

  /** The frames of one entry from `addr` on. */
  function EntryFrames(e: MemMapEntry, addr: u64): seq<nat> {
    if !Offered(e.memType) || e.base + e.len >= TWO_64 || Wraps(e) then []
    else FramesFrom(FirstAddr(e, addr), e.base + e.len)
  }

  /** What comes after entry `k`. */
  function Rest(entries: seq<MemMapEntry>, k: nat): seq<nat>
    requires k < |entries|
    decreases |entries| - k, 0
  {
    if Blocks(entries[k]) then [] else Pending(Cursor(entries, k + 1, 0))
  }

  function Pending(c: Cursor): seq<nat>
    decreases |c.entries| - c.entry, 1
  {
    if c.entry >= |c.entries| then []
    else EntryFrames(c.entries[c.entry], c.addr) + Rest(c.entries, c.entry)
  }

  /** From entry `k` on the cursor gets to an entry that wraps. */
  predicate WrapAhead(entries: seq<MemMapEntry>, k: nat)
    decreases |entries| - k
  {
    k < |entries| && (Wraps(entries[k]) || (!Blocks(entries[k]) && WrapAhead(entries, k + 1)))
  }

  /** Within an entry the cursor stands on a page boundary the entry reaches, or before an entry that wraps. */
  predicate CursorOk(c: Cursor) {
    && Aligned(c.addr)
    && (c.entry < |c.entries| && c.addr != 0 ==>
          var e := c.entries[c.entry];
          Offered(e.memType) && if Wraps(e) then c.addr <= e.base else e.base <= c.addr <= e.base + e.len < TWO_64)
  }

  // ---- One call -------------------------------------------------------------

  lemma FirstAddrOk(e: MemMapEntry, addr: u64)
    requires Aligned(addr) && e.base <= LAST_PAGE
    ensures var a := FirstAddr(e, addr);
            Aligned(a) && e.base <= a && addr <= a && (e.base <= addr ==> a == addr)
            && (addr < e.base ==> a < e.base + PAGE)
  {
  }

  /**
   One call of `next_from_map` hands out the head of the list and leaves the tail.
   Once the list is empty it answers `None`, or page 0 if an entry that wraps is ahead,
   and the list stays empty.
   */
  lemma {:induction false} NextIsHead(c: Cursor)
    requires CursorOk(c)
    ensures var (c', r) := Next(c);
            && c'.entries == c.entries && CursorOk(c') && WrapAhead(c'.entries, c'.entry) == WrapAhead(c.entries, c.entry)
            && (Pending(c) == [] ==> Pending(c') == [] && r == if WrapAhead(c.entries, c.entry) then Some(0) else None)
            && (Pending(c) != [] ==> r == Some(Pending(c)[0]) && Pending(c') == Pending(c)[1..])
    decreases |c.entries| - c.entry
  {
    if c.entry < |c.entries| {
      var e := c.entries[c.entry];
      var up := c.(entry := c.entry + 1, addr := 0);
      if !IsUsable(e.memType) {
        NextIsHead(up);
        assert Pending(c) == Pending(up);
      } else if Wraps(e) {
        NextWraps(c);
      } else if e.base + e.len < TWO_64 {
        FirstAddrOk(e, c.addr);
        var addr, end := FirstAddr(e, c.addr), e.base + e.len;
        if addr + PAGE >= TWO_64 {
          assert Pending(c) == [];
        } else if addr + PAGE > end {
          NextIsHead(up);
          assert Pending(c) == Pending(up);
        } else {
          NextInEntry(c);
        }
      }
    }
  }

  /** On an entry that wraps every call hands out page 0 and moves the cursor nowhere. */
  lemma NextWraps(c: Cursor)
    requires CursorOk(c) && c.entry < |c.entries| && Wraps(c.entries[c.entry])
    ensures Next(c) == (c.(addr := PAGE), Some(0)) && CursorOk(c.(addr := PAGE))
    ensures Pending(c) == [] && Pending(c.(addr := PAGE)) == []
  {
    var e := c.entries[c.entry];
    assert c.addr <= e.base;
    assert AlignUp(e.base) == 0;
  }

  lemma NextInEntry(c: Cursor)
    requires CursorOk(c) && c.entry < |c.entries|
    requires var e := c.entries[c.entry];
             Offered(e.memType) && e.base + e.len < TWO_64 && !Wraps(e) && FirstAddr(e, c.addr) + PAGE <= e.base + e.len
    ensures var (c', r) := Next(c);
            && CursorOk(c') && c'.entry == c.entry
            && Pending(c) != [] && r == Some(Pending(c)[0]) && Pending(c') == Pending(c)[1..]
  {
    var e := c.entries[c.entry];
    EntryStep(e, c.addr);
    HeadAndTail(FirstAddr(e, c.addr), EntryFrames(e, FirstAddr(e, c.addr) + PAGE), Rest(c.entries, c.entry));
  }

  lemma HeadAndTail(a: nat, more: seq<nat>, rest: seq<nat>)
    ensures var s := ([a] + more) + rest; s[0] == a && s[1..] == more + rest
  {
  }

  /** Taking a frame of an entry moves the cursor to the next page of it. */
  lemma EntryStep(e: MemMapEntry, addr: u64)
    requires Aligned(addr) && Offered(e.memType) && e.base + e.len < TWO_64 && !Wraps(e)
    requires FirstAddr(e, addr) + PAGE <= e.base + e.len
    ensures var a := FirstAddr(e, addr);
            && Aligned(a + PAGE) && e.base <= a + PAGE && a + PAGE != 0
            && EntryFrames(e, addr) == [a] + EntryFrames(e, a + PAGE)
  {
    FirstAddrOk(e, addr);
    FirstAddrOk(e, FirstAddr(e, addr) + PAGE);
  }

  // ---- Every call -----------------------------------------------------------

  /** The cursor after `n` calls. */
  function After(c: Cursor, n: nat): Cursor {
    if n == 0 then c else Next(After(c, n - 1)).0
  }

  /**
   Repeated calls yield the list, in order, each frame once, and then `None` for ever,
   or page 0 for ever if an entry that wraps is ahead.
   */
  lemma {:induction false} NthCall(c: Cursor, n: nat)
    requires CursorOk(c)
    ensures var d := After(c, n);
            && d.entries == c.entries && CursorOk(d) && WrapAhead(d.entries, d.entry) == WrapAhead(c.entries, c.entry)
            && Pending(d) == (if n <= |Pending(c)| then Pending(c)[n..] else [])
            && Next(d).1 == if n < |Pending(c)| then Some(Pending(c)[n])
                            else if WrapAhead(c.entries, c.entry) then Some(0)
                            else None
  {
    if n > 0 {
      NthCall(c, n - 1);
      CallTakesHead(After(c, n - 1), Pending(c), n - 1);
    }
    NextIsHead(After(c, n));
  }

  lemma CallTakesHead(d: Cursor, p: seq<nat>, n: nat)
    requires CursorOk(d) && Pending(d) == if n <= |p| then p[n..] else []
    ensures var d' := Next(d).0;
            && d'.entries == d.entries && CursorOk(d') && WrapAhead(d'.entries, d'.entry) == WrapAhead(d.entries, d.entry)
            && Pending(d') == if n + 1 <= |p| then p[n + 1..] else []
  {
    NextIsHead(d);
    if n < |p| {
      assert p[n..][1..] == p[n + 1..];
    }
  }

  /** The cursor at the start of the map. */
  function Start(entries: seq<MemMapEntry>): Cursor {
    Cursor(entries, 0, 0)
  }

  lemma {:induction false} WrapAheadFrom(entries: seq<MemMapEntry>, k: nat)
    ensures WrapAhead(entries, k) <==> exists j: nat :: k <= j < |entries| && Wraps(entries[j]) && Open(entries, k, j)
    decreases |entries| - k
  {
    if k < |entries| {
      WrapAheadFrom(entries, k + 1);
      if Wraps(entries[k]) {
        assert Open(entries, k, k);
      } else if WrapAhead(entries, k) {
        var j: nat :| k + 1 <= j < |entries| && Wraps(entries[j]) && Open(entries, k + 1, j);
        assert Open(entries, k, j);
      }
      if j: nat :| k <= j < |entries| && Wraps(entries[j]) && Open(entries, k, j) {
        if j != k {
          assert Open(entries, k + 1, j);
        }
      }
    }
  }

  /**
   The calls come to an end if and only if every entry whose rounding wraps lies behind
   an entry the cursor cannot leave.
   */
  lemma EndsIff(entries: seq<MemMapEntry>)
    ensures (exists n: nat :: Next(After(Start(entries), n)).1 == None)
       <==> forall j | 0 <= j < |entries| && Wraps(entries[j]) :: exists i :: 0 <= i < j && Blocks(entries[i])
  {
    var c := Start(entries);
    WrapAheadFrom(entries, 0);
    if WrapAhead(entries, 0) {
      var j: nat :| 0 <= j < |entries| && Wraps(entries[j]) && Open(entries, 0, j);
      assert forall i | 0 <= i < j :: !Blocks(entries[i]);
      forall n: nat ensures Next(After(c, n)).1 != None {
        NthCall(c, n);
      }
    } else {
      NthCall(c, |Pending(c)|);
      forall j | 0 <= j < |entries| && Wraps(entries[j]) ensures exists i :: 0 <= i < j && Blocks(entries[i]) {
        assert !Open(entries, 0, j);
      }
    }
  }

  // ---- Which frames are on the list -----------------------------------------

  /**
   The page at `x` lies wholly inside an entry of usable or bootloader-reclaimable
   memory; an entry may run past the end of the address space.
   */
  predicate InEntry(e: MemMapEntry, x: nat) {
    && (e.memType == Usable || e.memType == BootloaderReclaimable)
    && x % 4096 == 0 && e.base <= x && x + 4096 <= e.base + e.len && x + 4096 <= 0x1_0000_0000_0000_0000
  }

  /** The cursor gets to entry `j` and through its sum. */
  predicate Served(entries: seq<MemMapEntry>, j: nat)
    requires j < |entries|
  {
    entries[j].base + entries[j].len < TWO_64 && forall i | 0 <= i < j :: !Blocks(entries[i])
  }

  lemma {:induction false} FramesMembers(addr: nat, end: nat, x: nat)
    requires Aligned(addr)
    ensures x in FramesFrom(addr, end) <==> Aligned(x) && addr <= x && x + PAGE <= end
    decreases end - addr
  {
    if addr + PAGE <= end {
      FramesMembers(addr + PAGE, end, x);
      assert x in FramesFrom(addr, end) <==> x == addr || x in FramesFrom(addr + PAGE, end);
    }
  }

  lemma EntryFramesMembers(e: MemMapEntry, x: nat)
    ensures x in EntryFrames(e, 0) <==> InEntry(e, x) && e.base + e.len < TWO_64
  {
    if Offered(e.memType) && e.base + e.len < TWO_64 && !Wraps(e) {
      FirstAddrOk(e, 0);
      FramesMembers(FirstAddr(e, 0), e.base + e.len, x);
    }
  }

  predicate Open(entries: seq<MemMapEntry>, k: nat, j: nat)
    requires j <= |entries|
  {
    forall i | k <= i < j :: !Blocks(entries[i])
  }

  /** Starting at entry `k` the cursor hands out the page at `x` from entry `j`. */
  predicate FromEntry(entries: seq<MemMapEntry>, k: nat, j: nat, x: nat) {
    k <= j < |entries| && InEntry(entries[j], x) && entries[j].base + entries[j].len < TWO_64 && Open(entries, k, j)
  }

  /** The list from entry `k` on: the frames of the entries the cursor gets to. */
  lemma {:induction false} PendingFrom(entries: seq<MemMapEntry>, k: nat, x: nat)
    requires k <= |entries|
    ensures x in Pending(Cursor(entries, k, 0)) <==> exists j :: FromEntry(entries, k, j, x)
    decreases |entries| - k
  {
    if k < |entries| {
      EntryFramesMembers(entries[k], x);
      PendingFrom(entries, k + 1, x);
      assert x in Pending(Cursor(entries, k, 0)) <==> x in EntryFrames(entries[k], 0) || x in Rest(entries, k);
      if x in EntryFrames(entries[k], 0) {
        assert FromEntry(entries, k, k, x);
      } else if x in Rest(entries, k) {
        var j :| FromEntry(entries, k + 1, j, x);
        assert FromEntry(entries, k, j, x);
      }
      if j: nat :| FromEntry(entries, k, j, x) {
        if j != k {
          assert FromEntry(entries, k + 1, j, x);
        }
      }
    }
  }

  /**
   Exactness: from the start the cursor hands out the page frames lying wholly inside
   an entry of usable or bootloader-reclaimable memory that it gets to, and no others.
   */
  lemma PendingExact(entries: seq<MemMapEntry>, x: nat)
    ensures x in Pending(Start(entries)) <==>
            exists j :: && 0 <= j < |entries| && (entries[j].memType == Usable || entries[j].memType == BootloaderReclaimable)
                        && InEntry(entries[j], x) && Served(entries, j)
  {
    PendingFrom(entries, 0, x);
    if j :| 0 <= j < |entries| && InEntry(entries[j], x) && Served(entries, j) {
      assert FromEntry(entries, 0, j, x);
    }
    if j: nat :| FromEntry(entries, 0, j, x) {
      assert InEntry(entries[j], x) && Served(entries, j);
    }
  }

  // ---- Nothing twice --------------------------------------------------------

  /** No page lies inside two entries. */
  ghost predicate Disjoint(entries: seq<MemMapEntry>) {
    forall i, j, x: nat :: 0 <= i < j < |entries| && InEntry(entries[i], x) ==> !InEntry(entries[j], x)
  }

  ghost predicate Ascending(s: seq<nat>) {
    forall i, j :: 0 <= i < j < |s| ==> s[i] < s[j]
  }

  lemma {:induction false} FramesAscend(addr: nat, end: nat)
    requires Aligned(addr)
    ensures Ascending(FramesFrom(addr, end))
    decreases end - addr
  {
    if addr + PAGE <= end {
      var tail := FramesFrom(addr + PAGE, end);
      FramesAscend(addr + PAGE, end);
      forall i | 0 <= i < |tail| ensures addr < tail[i] {
        FramesMembers(addr + PAGE, end, tail[i]);
        assert tail[i] in tail;
      }
    }
  }

  /** On disjoint entries no page is listed twice. */
  lemma {:induction false} PendingDifferent(entries: seq<MemMapEntry>, k: nat)
    requires Disjoint(entries) && k <= |entries|
    ensures NoDuplicates(Pending(Cursor(entries, k, 0)))
    decreases |entries| - k
  {
    if k < |entries| {
      var e := entries[k];
      var head := EntryFrames(e, 0);
      var tail := Rest(entries, k);
      PendingDifferent(entries, k + 1);
      if Offered(e.memType) && e.base + e.len < TWO_64 && !Wraps(e) {
        FirstAddrOk(e, 0);
        FramesAscend(FirstAddr(e, 0), e.base + e.len);
      }
      forall x | x in head ensures x !in tail {
        EntryFramesMembers(e, x);
        PendingFrom(entries, k + 1, x);
      }
      NoDuplicatesConcat(head, tail);
      assert Pending(Cursor(entries, k, 0)) == head + tail;
    }
  }

  /** Pages are handed out entry by entry, and within an entry from the bottom. */
  lemma {:induction false} InMapOrder(entries: seq<MemMapEntry>, k: nat, i: nat, j: nat)
    requires k <= |entries| && i < j < |Pending(Cursor(entries, k, 0))|
    ensures var p := Pending(Cursor(entries, k, 0));
            exists a: nat, b: nat :: FromEntry(entries, k, a, p[i]) && FromEntry(entries, k, b, p[j]) && (a < b || (a == b && p[i] < p[j]))
    decreases |entries| - k
  {
    var p, head, tail := Pending(Cursor(entries, k, 0)), EntryFrames(entries[k], 0), Rest(entries, k);
    assert p == head + tail;
    if i < |head| {
      EntryFramesMembers(entries[k], p[i]);
      assert p[i] in head && FromEntry(entries, k, k, p[i]);
    }
    if j < |head| {
      EntryFramesMembers(entries[k], p[j]);
      assert p[j] in head && FromEntry(entries, k, k, p[j]);
      EntryAscends(entries[k]);
    } else if i < |head| {
      PendingFrom(entries, k + 1, p[j]);
      assert p[j] in tail;
      var b: nat :| FromEntry(entries, k + 1, b, p[j]);
      assert FromEntry(entries, k, b, p[j]);
    } else {
      InMapOrder(entries, k + 1, i - |head|, j - |head|);
      var a: nat, b: nat :| FromEntry(entries, k + 1, a, p[i]) && FromEntry(entries, k + 1, b, p[j]) && (a < b || (a == b && p[i] < p[j]));
      assert FromEntry(entries, k, a, p[i]) && FromEntry(entries, k, b, p[j]);
    }
  }

  lemma EntryAscends(e: MemMapEntry)
    ensures Ascending(EntryFrames(e, 0))
  {
    if Offered(e.memType) && e.base + e.len < TWO_64 && !Wraps(e) {
      FirstAddrOk(e, 0);
      FramesAscend(FirstAddr(e, 0), e.base + e.len);
    }
  }

  // ---- When nothing is left behind ------------------------------------------

  /** The entry has room for a page. */
  predicate HasFrame(e: MemMapEntry) {
    Offered(e.memType) && e.base <= LAST_PAGE && AlignUp(e.base) + PAGE <= e.base + e.len
  }

  lemma HasFrameWitness(e: MemMapEntry)
    ensures HasFrame(e) ==> InEntry(e, AlignUp(e.base))
    ensures (exists x: nat :: InEntry(e, x)) ==> HasFrame(e)
  {
  }

  /** Some call hands out the page at `x`. */
  ghost predicate HandedOut(entries: seq<MemMapEntry>, x: nat) {
    exists n: nat :: Next(After(Start(entries), n)).1 == Some(x)
  }

  /** What is ever handed out: the list, and page 0 if an entry that wraps is ahead. */
  lemma HandedOutExact(entries: seq<MemMapEntry>, x: nat)
    ensures HandedOut(entries, x) <==> x in Pending(Start(entries)) || (x == 0 && WrapAhead(entries, 0))
  {
    var c := Start(entries);
    if n: nat :| Next(After(c, n)).1 == Some(x) {
      NthCall(c, n);
    }
    if x in Pending(c) {
      var n :| 0 <= n < |Pending(c)| && Pending(c)[n] == x;
      NthCall(c, n);
    } else if x == 0 && WrapAhead(entries, 0) {
      NthCall(c, |Pending(c)|);
    }
  }

  /** The cursor hands out every page of every usable entry. */
  ghost predicate Exhaustive(entries: seq<MemMapEntry>) {
    forall j: nat, x: nat :: j < |entries| && InEntry(entries[j], x) ==> HandedOut(entries, x)
  }

  /** The entry holds page 0 and no other page. */
  predicate OnlyPageZero(e: MemMapEntry) {
    e.base == 0 && e.len < 2 * PAGE
  }

  /**
   No entry with room for a page overflows or comes after one the cursor cannot leave,
   page 0 of a map that wraps excepted.
   */
  predicate NothingBehindBlock(entries: seq<MemMapEntry>) {
    forall j | 0 <= j < |entries| && HasFrame(entries[j]) ::
      Served(entries, j) || (WrapAhead(entries, 0) && OnlyPageZero(entries[j]))
  }

  lemma ServedIfExhaustive(entries: seq<MemMapEntry>, j: nat)
    requires Disjoint(entries) && Exhaustive(entries) && j < |entries| && HasFrame(entries[j])
    ensures Served(entries, j) || (WrapAhead(entries, 0) && OnlyPageZero(entries[j]))
  {
    if !Served(entries, j) {
      HasFrameWitness(entries[j]);
      NotServedIsZero(entries, j, AlignUp(entries[j].base));
      if entries[j].len >= 2 * PAGE {
        NotServedIsZero(entries, j, PAGE);
      }
    }
  }

  lemma NotServedIsZero(entries: seq<MemMapEntry>, j: nat, x: nat)
    requires Disjoint(entries) && Exhaustive(entries) && j < |entries| && !Served(entries, j) && InEntry(entries[j], x)
    ensures x == 0 && WrapAhead(entries, 0)
  {
    assert HandedOut(entries, x);
    HandedOutExact(entries, x);
    PendingExact(entries, x);
  }

  /**
   On every map of disjoint entries, the cursor hands out all usable pages if and only
   if none of them belongs to an overflowing entry or lies behind an entry the cursor
   cannot leave, page 0 of a map that wraps excepted.
   */
  lemma ExhaustiveIff(entries: seq<MemMapEntry>)
    requires Disjoint(entries)
    ensures Exhaustive(entries) <==> NothingBehindBlock(entries)
  {
    if NothingBehindBlock(entries) {
      forall j: nat, x: nat | j < |entries| && InEntry(entries[j], x) ensures HandedOut(entries, x) {
        HasFrameWitness(entries[j]);
        PendingExact(entries, x);
        HandedOutExact(entries, x);
      }
    }
    if Exhaustive(entries) {
      forall j | 0 <= j < |entries| && HasFrame(entries[j])
        ensures Served(entries, j) || (WrapAhead(entries, 0) && OnlyPageZero(entries[j]))
      {
        ServedIfExhaustive(entries, j);
      }
    }
  }

  /** Memory of the other six kinds is never handed out: without one of the two, every call answers `None`. */
  lemma NothingElseOffered(entries: seq<MemMapEntry>, n: nat)
    requires forall j | 0 <= j < |entries| :: entries[j].memType != Usable && entries[j].memType != BootloaderReclaimable
    ensures Next(After(Start(entries), n)).1 == None
  {
    var c := Start(entries);
    NthCall(c, n);
    WrapAheadFrom(entries, 0);
    if Pending(c) != [] {
      PendingExact(entries, Pending(c)[0]);
    }
  }

  /** A single entry of one of the two kinds is handed out, page by page from the bottom. */
  lemma OneEntryOffered(e: MemMapEntry, n: nat)
    requires e.memType == Usable || e.memType == BootloaderReclaimable
    requires e.base % 4096 == 0 && e.base + e.len < LAST_PAGE
    ensures Next(After(Start([e]), n)).1 == if n < e.len / 4096 then Some(e.base + n * 4096) else None
  {
    var p := FramesFrom(e.base, e.base + e.len);
    OneEntryPending(e);
    FramesByIndex(e.base, e.base + e.len);
    ListOnly(Start([e]), p, n);
  }

  /** With nothing that wraps ahead the calls yield the list and then `None`. */
  lemma ListOnly(c: Cursor, p: seq<nat>, n: nat)
    requires CursorOk(c) && Pending(c) == p && !WrapAhead(c.entries, c.entry)
    ensures Next(After(c, n)).1 == if n < |p| then Some(p[n]) else None
  {
    NthCall(c, n);
  }

  lemma OneEntryPending(e: MemMapEntry)
    requires e.memType == Usable || e.memType == BootloaderReclaimable
    requires e.base % 4096 == 0 && e.base + e.len < LAST_PAGE
    ensures Pending(Start([e])) == FramesFrom(e.base, e.base + e.len) && !WrapAhead([e], 0) && CursorOk(Start([e]))
  {
    FirstAddrOk(e, 0);
    assert FirstAddr(e, 0) == e.base;
    assert Pending(Cursor([e], 1, 0)) == [];
  }

  lemma {:induction false} FramesByIndex(addr: nat, end: nat)
    requires addr <= end
    ensures |FramesFrom(addr, end)| == (end - addr) / 4096
    ensures forall k | 0 <= k < |FramesFrom(addr, end)| :: FramesFrom(addr, end)[k] == addr + k * 4096
    decreases end - addr
  {
    if addr + PAGE <= end {
      FramesByIndex(addr + PAGE, end);
    }
  }

  /** A usable page behind an overflowing entry is never handed out. */
  lemma OverflowStarves()
    ensures var entries := [MemMapEntry(0x1000, TWO_64 - 1, Usable), MemMapEntry(0, 0x1000, Usable)];
            InEntry(entries[1], 0) && !HandedOut(entries, 0)
  {
    var entries := [MemMapEntry(0x1000, TWO_64 - 1, Usable), MemMapEntry(0, 0x1000, Usable)];
    HandedOutExact(entries, 0);
    PendingExact(entries, 0);
  }

  /** With a base in the last page the rounding wraps, and every call hands out page 0. */
  lemma WrapRepeatsZero(n: nat)
    ensures var entries := [MemMapEntry(TWO_64 - 0xfff, 1, Usable)];
            Next(After(Start(entries), n)).1 == Some(0) && !InEntry(entries[0], 0)
  {
    var entries := [MemMapEntry(TWO_64 - 0xfff, 1, Usable)];
    NthCall(Start(entries), n);
  }
}
