/**
 The boot frame allocator as the kernel has it: a cursor over the memory map and a
 fixed array used as a stack of returned frames.
 */
module BootAllocator {
  import opened Wrappers
  import opened Pte
  import opened AddressBits
  import opened FrameSupply
  import opened FrameCursor
  import opened PageTree
  import opened PhysicalMemory

  function Frame(a: nat): PhysAddr {
    PhysAddr(ToBits(a))
  }

  function Frames(s: seq<nat>): (fs: seq<PhysAddr>)
    ensures |fs| == |s| && forall i :: 0 <= i < |s| ==> fs[i] == Frame(s[i])
  {
    if s == [] then [] else [Frame(s[0])] + Frames(s[1..])
  }

  /** What an allocator over this memory map starts with. */
  function InitialContents(entries: seq<MemMapEntry>): Supply {
    Supply([], Frames(Pending(Start(entries))), WrapAhead(entries, 0))
  }

  class BootPtAlloc {
    const entries: seq<MemMapEntry>
    const mem: PhysMem
    var curEntry: nat
    var curAddr: u64
    const freeList: array<PhysAddr>
    var freeCount: nat

    ghost function Position(): Cursor
      reads this
    {
      Cursor(entries, curEntry, curAddr)
    }

    ghost predicate Valid()
      reads this
    {
      && freeList.Length == MAX_FREE_FRAMES && freeCount <= MAX_FREE_FRAMES
      && CursorOk(Position())
    }

    /** What the allocator still has to give. */
    ghost function Contents(): Supply
      reads this, freeList
      requires Valid()
    {
      Supply(freeList[..freeCount], Frames(Pending(Position())), WrapAhead(entries, curEntry))
    }

    constructor (entries: seq<MemMapEntry>, mem: PhysMem)
      ensures Valid() && fresh(freeList) && this.mem == mem && this.entries == entries
      ensures Contents() == InitialContents(entries)
    {
      this.entries := entries;
      this.mem := mem;
      curEntry, curAddr, freeCount := 0, 0, 0;
      freeList := new PhysAddr[MAX_FREE_FRAMES](_ => PhysAddr(0));
    }

    method NextFromMap() returns (r: Option<u64>)
      modifies this`curEntry, this`curAddr
      ensures (Position(), r) == Next(old(Position()))
    {
      ghost var start := Position();
      while curEntry < |entries|
        invariant Next(Position()) == Next(start)
        decreases |entries| - curEntry
      {
        var entry := entries[curEntry];
        if !IsUsable(entry.memType) {
          curEntry, curAddr := curEntry + 1, 0;
          continue;
        }
        if entry.base + entry.len >= TWO_64 {
          return None;
        }
        var end := entry.base + entry.len;
        var addr := if curAddr < entry.base then entry.base else curAddr;
        addr := AlignUp(addr);
        if addr + PAGE >= TWO_64 {
          return None;
        }
        if addr + PAGE > end {
          curEntry, curAddr := curEntry + 1, 0;
          continue;
        }
        curAddr := addr + PAGE;
        return Some(addr);
      }
      return None;
    }

    /**
     Hands out the top of the stack or else the next frame of the map, zeroed.  With
     both exhausted it fails, or hands out page 0 if an entry that wraps is ahead.
     */
    method AllocFrame4K() returns (r: Option<PhysAddr>)
      requires Valid()
      modifies this, mem
      ensures Valid()
      ensures (Contents(), r) == Alloc(old(Contents()))
      ensures Decoded(mem.words) == if r.Some? then Zero(old(Decoded(mem.words)), r.value) else old(Decoded(mem.words))
      ensures if r.Some? then ZeroedIn(old(mem.words), mem.words, r.value) else mem.words == old(mem.words)
    {
      var paddr: PhysAddr;
      if freeCount > 0 {
        freeCount := freeCount - 1;
        paddr := freeList[freeCount];
        assert freeList[..freeCount] == old(freeList[..freeCount])[..freeCount];
      } else {
        NextIsHead(Position());
        ghost var before := Pending(Position());
        var a := NextFromMap();
        if a.None? {
          return None;
        }
        paddr := Frame(a.value);
        if before != [] {
          assert Frames(before)[1..] == Frames(before[1..]);
        }
      }
      mem.ZeroFrame(paddr);
      r := Some(paddr);
    }

    /** Pushes the frame, or drops it when the stack is full. */
    method FreeFrame4K(paddr: PhysAddr)
      requires Valid()
      modifies this`freeCount, freeList
      ensures Valid()
      ensures Contents() == Free(old(Contents()), paddr)
    {
      if freeCount < MAX_FREE_FRAMES {
        freeList[freeCount] := paddr;
        freeCount := freeCount + 1;
      }
    }
  }

  // ---- What the allocator starts with ---------------------------------------

  /** Usable memory ends below 2^52, the largest physical address an entry can hold. */
  predicate Addressable(entries: seq<MemMapEntry>) {
    forall i | 0 <= i < |entries| && Offered(entries[i].memType) :: entries[i].base + entries[i].len <= 0x10_0000_0000_0000
  }

  /** The frame of some page of a usable entry. */
  ghost predicate UsableFrame(entries: seq<MemMapEntry>, f: PhysAddr) {
    exists j, x: nat :: 0 <= j < |entries| && InEntry(entries[j], x) && f == Frame(x)
  }

  /**
   On a memory map whose usable entries are disjoint and addressable the allocator
   starts with exactly the usable pages, once each, as proper frame addresses.
   */
  lemma InitialSupply(entries: seq<MemMapEntry>)
    requires Addressable(entries) && Disjoint(entries)
    ensures !WrapAhead(entries, 0)
    ensures var fs := Frames(Pending(Start(entries)));
            && NoDuplicates(fs)
            && (forall f :: f in fs ==> IsFrame(f.raw))
            && (forall f :: f in fs <==> UsableFrame(entries, f))
            && Partition(InitialContents(entries), Elements(fs), {}, {})
  {
    WrapAheadFrom(entries, 0);
    var p := Pending(Start(entries));
    PendingDifferent(entries, 0);
    PendingAligned(entries);
    FramesDifferent(p);
    FramesAreFrames(p);
    forall f ensures f in Frames(p) <==> UsableFrame(entries, f) {
      FrameListed(entries, f);
    }
  }

  lemma PendingAligned(entries: seq<MemMapEntry>)
    requires Addressable(entries)
    ensures forall i | 0 <= i < |Pending(Start(entries))| ::
              Pending(Start(entries))[i] % PAGE == 0 && Pending(Start(entries))[i] < 0x10_0000_0000_0000
  {
    var p := Pending(Start(entries));
    forall i | 0 <= i < |p| ensures p[i] % PAGE == 0 && p[i] < 0x10_0000_0000_0000 {
      PendingExact(entries, p[i]);
      assert p[i] in p;
    }
  }

  lemma FrameListed(entries: seq<MemMapEntry>, f: PhysAddr)
    requires Addressable(entries)
    ensures f in Frames(Pending(Start(entries))) <==> UsableFrame(entries, f)
  {
    var p := Pending(Start(entries));
    assert forall i | 0 <= i < |entries| :: !Blocks(entries[i]);
    if f in Frames(p) {
      var i :| 0 <= i < |p| && Frames(p)[i] == f;
      PendingExact(entries, p[i]);
      assert p[i] in p;
    }
    if j, x: nat :| 0 <= j < |entries| && InEntry(entries[j], x) && f == Frame(x) {
      PendingExact(entries, x);
      assert Served(entries, j);
      var i :| 0 <= i < |p| && p[i] == x;
      assert Frames(p)[i] == f;
    }
  }

  lemma FramesDifferent(p: seq<nat>)
    requires NoDuplicates(p) && forall i | 0 <= i < |p| :: p[i] < TWO_64
    ensures NoDuplicates(Frames(p))
  {
    forall i, j | 0 <= i < j < |p| ensures Frames(p)[i] != Frames(p)[j] {
      ToBitsValue(p[i]);
      ToBitsValue(p[j]);
    }
  }

  lemma FramesAreFrames(p: seq<nat>)
    requires forall i | 0 <= i < |p| :: p[i] % PAGE == 0 && p[i] < 0x10_0000_0000_0000
    ensures forall f :: f in Frames(p) ==> IsFrame(f.raw)
  {
    forall f | f in Frames(p) ensures IsFrame(f.raw) {
      var i :| 0 <= i < |p| && Frames(p)[i] == f;
      AlignedIsFrame(p[i]);
    }
  }
}
