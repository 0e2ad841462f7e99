/**
 The boot string arena: a fixed buffer into which the boot loader's strings are
 copied, one after the other, at offsets that are multiples of 8.
 */
module StringArena {
  const STRBUF_SIZE: nat := 4096
  const SPACE: bv8 := 0x20

  /** A span of the buffer, or the empty span. */
  datatype ByteSpan = Empty | Span(off: nat, len: nat)

  datatype Arena = Arena(buf: seq<bv8>, used: nat)

  predicate ArenaOk(a: Arena) {
    |a.buf| == STRBUF_SIZE && a.used <= STRBUF_SIZE
  }

  /** The next multiple of 8. */
  function RoundUp8(n: nat): nat {
    (n + 7) / 8 * 8
  }

  /** Overwrite part of a buffer. */
  function Splice(buf: seq<bv8>, off: nat, bytes: seq<bv8>): seq<bv8>
    requires off + |bytes| <= |buf|
  {
    buf[..off] + bytes + buf[off + |bytes|..]
  }

  /** Append a string if it is not empty and fits. */
  function Put(a: Arena, bytes: seq<bv8>): (Arena, ByteSpan)
    requires ArenaOk(a)
  {
    var off := RoundUp8(a.used);
    if bytes == [] || off + |bytes| > STRBUF_SIZE then (a, Empty)
    else (Arena(Splice(a.buf, off, bytes), off + |bytes|), Span(off, |bytes|))
  }

  function Read(a: Arena, s: ByteSpan): seq<bv8>
    requires s.Span? ==> s.off + s.len <= |a.buf|
  {
    if s.Empty? then [] else a.buf[s.off..s.off + s.len]
  }

  // ---- Runs -----------------------------------------------------------------

  datatype Request = Copy(bytes: seq<bv8>) | Join(a: seq<bv8>, b: seq<bv8>)

  /** What a request asks to be stored: a join of two non-empty strings puts a space between them. */
  function Payload(q: Request): seq<bv8> {
    match q
    case Copy(bytes) => bytes
    case Join(a, b) => if a == [] then b else if b == [] then a else a + [SPACE] + b
  }

  function PutAll(a: Arena, qs: seq<Request>): (r: (Arena, seq<ByteSpan>))
    requires ArenaOk(a)
    ensures ArenaOk(r.0) && |r.1| == |qs|
  {
    if qs == [] then (a, [])
    else
      var (a1, spans) := PutAll(a, qs[..|qs| - 1]);
      var (a2, s) := Put(a1, Payload(qs[|qs| - 1]));
      (a2, spans + [s])
  }

  /** The span lies in the used part of the buffer, aligned, and holds the string. */
  predicate Holds(a: Arena, s: ByteSpan, bytes: seq<bv8>) {
    s.Span? ==> s.off % 8 == 0 && s.len > 0 && s.off + s.len <= a.used <= |a.buf| && Read(a, s) == bytes
  }

  /** A later string leaves an earlier span alone and lies behind it. */
  lemma PutKeeps(a: Arena, s: ByteSpan, bytes: seq<bv8>, more: seq<bv8>)
    requires ArenaOk(a) && Holds(a, s, bytes)
    ensures Holds(Put(a, more).0, s, bytes)
    ensures s.Span? && Put(a, more).1.Span? ==> s.off + s.len <= Put(a, more).1.off
  {
  }

  lemma PutHolds(a: Arena, bytes: seq<bv8>)
    requires ArenaOk(a)
    ensures Holds(Put(a, bytes).0, Put(a, bytes).1, bytes)
    ensures Put(a, bytes).1.Empty? <==> bytes == [] || RoundUp8(a.used) + |bytes| > STRBUF_SIZE
  {
  }

  /** A stored string goes to the next multiple of 8, and nothing but that room is used up. */
  lemma PutPlaces(a: Arena, bytes: seq<bv8>)
    requires ArenaOk(a)
    ensures var (a', s) := Put(a, bytes);
            && (s.Span? ==> s.off % 8 == 0 && a.used <= s.off < a.used + 8 && s.len == |bytes| && a'.used == s.off + s.len)
            && (s.Empty? ==> a' == a)
            && (s.Empty? <==> bytes == [] || (a.used + 7) / 8 * 8 + |bytes| > 4096)
  {
  }

  /** A join reads back the two strings with one space between them, or the one that is not empty. */
  lemma JoinReadsBack(arena: Arena, a: seq<bv8>, b: seq<bv8>)
    requires ArenaOk(arena)
    ensures var (arena', s) := Put(arena, Payload(Join(a, b)));
            && (s.Span? ==> Holds(arena', s, if a == [] then b else if b == [] then a else a + [0x20] + b))
            && (s.Empty? <==> (a == [] && b == []) ||
                              (arena.used + 7) / 8 * 8 + |a| + |b| + (if a != [] && b != [] then 1 else 0) > 4096)
  {
    PutHolds(arena, Payload(Join(a, b)));
  }

  /** All spans of a run read back, and the non-empty ones lie one behind the other. */
  ghost predicate Stored(e: Arena, spans: seq<ByteSpan>, qs: seq<Request>) {
    && |spans| == |qs|
    && (forall i :: 0 <= i < |qs| ==> Holds(e, spans[i], Payload(qs[i])))
    && (forall i, j :: 0 <= i < j < |qs| && spans[i].Span? && spans[j].Span? ==> spans[i].off + spans[i].len <= spans[j].off)
  }

  /**
   Over every sequence of copies and joins the non-empty spans lie one behind the
   other without overlap, aligned and in bounds, and every one of them still reads
   back what it was given.
   */
  lemma {:induction false} ArenaRuns(a: Arena, qs: seq<Request>)
    requires ArenaOk(a)
    ensures Stored(PutAll(a, qs).0, PutAll(a, qs).1, qs)
    decreases |qs|
  {
    if qs != [] {
      var n := |qs| - 1;
      ArenaRuns(a, qs[..n]);
      var (a1, spans) := PutAll(a, qs[..n]);
      StoredStep(a1, spans, qs[..n], qs[n]);
      assert qs[..n] + [qs[n]] == qs;
    }
  }

  lemma StoredStep(a: Arena, spans: seq<ByteSpan>, qs: seq<Request>, q: Request)
    requires ArenaOk(a) && Stored(a, spans, qs)
    ensures Stored(Put(a, Payload(q)).0, spans + [Put(a, Payload(q)).1], qs + [q])
  {
    PutHolds(a, Payload(q));
    forall i | 0 <= i < |qs|
      ensures Holds(Put(a, Payload(q)).0, spans[i], Payload(qs[i]))
      ensures spans[i].Span? && Put(a, Payload(q)).1.Span? ==> spans[i].off + spans[i].len <= Put(a, Payload(q)).1.off
    {
      PutKeeps(a, spans[i], Payload(qs[i]), Payload(q));
    }
  }

  // ---- The buffer in place --------------------------------------------------

  class StrBuf {
    const buf: array<bv8>
    var used: nat

    ghost predicate Valid()
      reads this
    {
      buf.Length == STRBUF_SIZE && used <= STRBUF_SIZE
    }

    ghost function Abs(): Arena
      reads this, buf
      requires Valid()
    {
      Arena(buf[..], used)
    }

    constructor ()
      ensures Valid() && fresh(buf) && used == 0
    {
      buf := new bv8[STRBUF_SIZE](_ => 0);
      used := 0;
    }

    method AllocCopy(bytes: seq<bv8>) returns (s: ByteSpan)
      requires Valid()
      modifies this, buf
      ensures Valid() && (Abs(), s) == Put(old(Abs()), Payload(Copy(bytes)))
      ensures Holds(Abs(), s, bytes)
    {
      PutHolds(Abs(), bytes);
      if bytes == [] {
        return Empty;
      }
      var off := RoundUp8(used);
      var need := |bytes|;
      if off + need > STRBUF_SIZE {
        return Empty;
      }
      CopySlice(off, bytes);
      used := off + need;
      s := Span(off, need);
    }

    method AllocJoin(a: seq<bv8>, b: seq<bv8>) returns (s: ByteSpan)
      requires Valid()
      modifies this, buf
      ensures Valid() && (Abs(), s) == Put(old(Abs()), Payload(Join(a, b)))
      ensures a != [] && b != [] ==> Holds(Abs(), s, a + [0x20] + b)
    {
      JoinReadsBack(Abs(), a, b);
      if a == [] {
        s := AllocCopy(b);
        return;
      }
      if b == [] {
        s := AllocCopy(a);
        return;
      }
      var off := RoundUp8(used);
      var need := |a| + 1 + |b|;
      if off + need > STRBUF_SIZE {
        return Empty;
      }
      CopyJoined(off, a, b);
      used := off + need;
      s := Span(off, need);
    }

    /** Both strings, with a space between them. */
    method CopyJoined(off: nat, a: seq<bv8>, b: seq<bv8>)
      requires Valid() && off + |a| + 1 + |b| <= STRBUF_SIZE
      modifies buf
      ensures buf[..] == Splice(old(buf[..]), off, a + [SPACE] + b)
    {
      SpliceThrice(buf[..], off, a, [SPACE], b);
      var cur := off;
      CopySlice(cur, a);
      cur := cur + |a|;
      CopySlice(cur, [SPACE]);
      cur := cur + 1;
      CopySlice(cur, b);
    }

    method CopySlice(off: nat, bytes: seq<bv8>)
      requires Valid() && off + |bytes| <= STRBUF_SIZE
      modifies buf
      ensures buf[..] == Splice(old(buf[..]), off, bytes)
    {
      forall k | 0 <= k < |bytes| {
        buf[off + k] := bytes[k];
      }
    }
  }

  lemma SpliceThrice(buf: seq<bv8>, off: nat, a: seq<bv8>, b: seq<bv8>, c: seq<bv8>)
    requires off + |a| + |b| + |c| <= |buf|
    ensures Splice(Splice(Splice(buf, off, a), off + |a|, b), off + |a| + |b|, c) == Splice(buf, off, a + b + c)
  {
  }
}

/**
 Reading the boot loader's strings: from a pointer of either kind to a view that is
 known to end inside one entry of the memory map.
 */
module StringViews {
  import opened Wrappers
  import opened AddressBits
  import opened FrameCursor

  const MAX_STR_BYTES: nat := 1024

  datatype StrView = StrView(ptr: u64, len: nat)

  /** The address lies inside the entry. */
  predicate Covers(e: MemMapEntry, phys: u64) {
    e.base <= phys < e.base + e.len
  }

  /** `end` of the entry does not fit 64 bits. */
  predicate Overflowing(e: MemMapEntry) {
    e.base + e.len >= TWO_64
  }

  /** The entry that answers for an address: the first to cover it, unless one up to it overflows. */
  predicate Answers(entries: seq<MemMapEntry>, phys: u64, i: nat) {
    && i < |entries| && Covers(entries[i], phys)
    && (forall j | 0 <= j <= i :: !Overflowing(entries[j]))
    && (forall j | 0 <= j < i :: !Covers(entries[j], phys))
  }

  /** How many bytes are left in the entry that answers for the address. */
  method PhysAvailable(phys: u64, entries: seq<MemMapEntry>) returns (r: Option<nat>)
    ensures r.Some? ==> exists i: nat :: Answers(entries, phys, i) && r.value == entries[i].base + entries[i].len - phys
    ensures r.None? ==> forall i: nat :: !Answers(entries, phys, i)
  {
    var i := 0;
    while i < |entries|
      invariant 0 <= i <= |entries|
      invariant forall j | 0 <= j < i :: !Overflowing(entries[j]) && !Covers(entries[j], phys)
    {
      if entries[i].base + entries[i].len >= TWO_64 {
        return None;
      }
      var end := entries[i].base + entries[i].len;
      if phys >= entries[i].base && phys < end {
        assert Answers(entries, phys, i);
        return Some(end - phys);
      }
      i := i + 1;
    }
    return None;
  }

  /** Some entry covers the address and yet none answers for it. */
  ghost predicate Hidden(entries: seq<MemMapEntry>, phys: u64) {
    && (exists i :: 0 <= i < |entries| && Covers(entries[i], phys))
    && (forall i: nat :: !Answers(entries, phys, i))
  }

  /** A covered address goes unanswered if and only if an overflowing entry comes no later than every entry covering it. */
  lemma HiddenIff(entries: seq<MemMapEntry>, phys: u64)
    ensures Hidden(entries, phys) <==>
            && (exists i :: 0 <= i < |entries| && Covers(entries[i], phys))
            && (exists j :: 0 <= j < |entries| && Overflowing(entries[j]) && forall k | 0 <= k < j :: !Covers(entries[k], phys))
  {
    if i :| 0 <= i < |entries| && Covers(entries[i], phys) {
      var first := FirstCovering(entries, phys, i);
      assert Answers(entries, phys, first) || exists j :: 0 <= j <= first && Overflowing(entries[j]);
    }
  }

  lemma FirstCovering(entries: seq<MemMapEntry>, phys: u64, i: nat) returns (first: nat)
    requires i < |entries| && Covers(entries[i], phys)
    ensures first <= i && Covers(entries[first], phys) && forall k | 0 <= k < first :: !Covers(entries[k], phys)
  {
    first := 0;
    while !Covers(entries[first], phys)
      invariant first <= i && forall k | 0 <= k < first :: !Covers(entries[k], phys)
      decreases i - first
    {
      first := first + 1;
    }
  }

  /** An overflowing entry that covers nothing of interest hides the entry behind it. */
  lemma OverflowHides()
    ensures var entries := [MemMapEntry(0x1000, TWO_64 - 1, Reserved), MemMapEntry(0, 0x1000, Usable)];
            Covers(entries[1], 0x10) && Hidden(entries, 0x10)
  {
    var entries := [MemMapEntry(0x1000, TWO_64 - 1, Reserved), MemMapEntry(0, 0x1000, Usable)];
    assert Covers(entries[1], 0x10) && Overflowing(entries[0]);
    HiddenIff(entries, 0x10);
  }

  /** The physical address a pointer stands for: it is one itself, or lies in the direct map. */
  function PhysOf(ptr: u64, hhdm: u64): u64 {
    if hhdm != 0 && ptr < hhdm then ptr else ptr - hhdm
  }

  /** Where the byte at a physical address is read. */
  function VirtOf(phys: u64, hhdm: u64): u64 {
    (phys + hhdm) % TWO_64
  }

  /** Both kinds of pointer resolve to the direct-map address of the same physical byte. */
  method ResolveLiminePtr(ptr: u64, hhdm: u64, entries: seq<MemMapEntry>) returns (r: Option<(u64, nat)>)
    ensures r.Some? ==>
              && r.value.0 == VirtOf(PhysOf(ptr, hhdm), hhdm)
              && exists i: nat :: Answers(entries, PhysOf(ptr, hhdm), i)
                                  && r.value.1 == entries[i].base + entries[i].len - PhysOf(ptr, hhdm)
    ensures r.None? ==> forall i: nat :: !Answers(entries, PhysOf(ptr, hhdm), i)
  {
    if hhdm != 0 && ptr < hhdm {
      var max := PhysAvailable(ptr, entries);
      if max.None? {
        return None;
      }
      return Some(((ptr + hhdm) % TWO_64, max.value));
    }
    var phys := if hhdm != 0 then (ptr + TWO_64 - hhdm) % TWO_64 else ptr;
    var max := PhysAvailable(phys, entries);
    if max.None? {
      return None;
    }
    return Some((ptr, max.value));
  }

  /** The byte `k` places after an address. */
  function ByteAfter(ram: u64 -> bv8, virt: u64, k: nat): bv8 {
    ram((virt + k) % TWO_64)
  }

  /** The first NUL at or after `virt` is `len` bytes on. */
  predicate FirstNul(ram: u64 -> bv8, virt: u64, len: nat) {
    && ByteAfter(ram, virt, len) == 0
    && forall k: nat | k < len :: ByteAfter(ram, virt, k) != 0
  }

  /** The view the pointer deserves: non-empty, shorter than 1024 bytes, with its NUL inside the answering entry. */
  ghost predicate GoodView(ram: u64 -> bv8, ptr: u64, hhdm: u64, entries: seq<MemMapEntry>, len: nat) {
    && ptr != 0 && 0 < len < 1024
    && FirstNul(ram, VirtOf(PhysOf(ptr, hhdm), hhdm), len)
    && exists i: nat :: Answers(entries, PhysOf(ptr, hhdm), i) && PhysOf(ptr, hhdm) + len < entries[i].base + entries[i].len
  }

  /** A view is returned exactly when there is a good one, and it is the good one. */
  method CstrView(ram: u64 -> bv8, ptr: u64, hhdm: u64, entries: seq<MemMapEntry>) returns (r: Option<StrView>)
    ensures r.Some? ==> r.value.ptr == VirtOf(PhysOf(ptr, hhdm), hhdm) && GoodView(ram, ptr, hhdm, entries, r.value.len)
    ensures r.None? ==> forall len: nat :: !GoodView(ram, ptr, hhdm, entries, len)
  {
    if ptr == 0 || |entries| == 0 {
      return None;
    }
    var resolved := ResolveLiminePtr(ptr, hhdm, entries);
    if resolved.None? {
      return None;
    }
    var (virt, max) := resolved.value;
    var maxLen := if max < MAX_STR_BYTES then max else MAX_STR_BYTES;
    ghost var i: nat :| Answers(entries, PhysOf(ptr, hhdm), i) && max == entries[i].base + entries[i].len - PhysOf(ptr, hhdm);
    forall j: nat | Answers(entries, PhysOf(ptr, hhdm), j) ensures j == i {
      AnswersUnique(entries, PhysOf(ptr, hhdm), i, j);
    }
    var len := 0;
    while len < maxLen && ByteAfter(ram, virt, len) != 0
      invariant 0 <= len <= maxLen
      invariant forall k: nat | k < len :: ByteAfter(ram, virt, k) != 0
    {
      len := len + 1;
    }
    if len == maxLen || len == 0 {
      return None;
    }
    r := Some(StrView(virt, len));
  }

  lemma AnswersUnique(entries: seq<MemMapEntry>, phys: u64, i: nat, j: nat)
    requires Answers(entries, phys, i) && Answers(entries, phys, j)
    ensures i == j
  {
  }
}
