/**
 What a page-table frame allocator is to its clients: a bounded stack of returned
 frames in front of a list of frames not handed out yet.

 `Partition` is the conservation law: the frames a client holds, the stacked ones,
 the ones still to come and the ones lost for good are at all times a partition of
 the frames the allocator started with.
 */
module FrameSupply {
  import opened Wrappers
  import opened Pte

  const MAX_FREE_FRAMES: nat := 128

  /** `wraps`: once both lists are empty, page 0 is handed out for ever. */
  datatype Supply = Supply(free: seq<PhysAddr>, pending: seq<PhysAddr>, wraps: bool)

  function Alloc(s: Supply): (Supply, Option<PhysAddr>) {
    if |s.free| > 0 then
      (s.(free := s.free[..|s.free| - 1]), Some(s.free[|s.free| - 1]))
    else if |s.pending| > 0 then
      (s.(pending := s.pending[1..]), Some(s.pending[0]))
    else if s.wraps then
      (s, Some(PhysAddr(0)))
    else
      (s, None)
  }

  /** A frame returned to a full stack is dropped. */
  function Free(s: Supply, f: PhysAddr): Supply {
    if |s.free| < MAX_FREE_FRAMES then s.(free := s.free + [f]) else s
  }

  function FreeAll(s: Supply, fs: seq<PhysAddr>): Supply
    decreases |fs|
  {
    if fs == [] then s else FreeAll(Free(s, fs[0]), fs[1..])
  }

  ghost function Elements(fs: seq<PhysAddr>): set<PhysAddr> {
    set f | f in fs
  }

  ghost predicate NoDuplicates<T>(s: seq<T>) {
    forall i, j :: 0 <= i < j < |s| ==> s[i] != s[j]
  }

  lemma NoDuplicatesConcat<T>(a: seq<T>, b: seq<T>)
    requires NoDuplicates(a) && NoDuplicates(b) && forall t :: t in a ==> t !in b
    ensures NoDuplicates(a + b)
  {
    forall i, j | 0 <= i < j < |a + b| ensures (a + b)[i] != (a + b)[j] {
      if i < |a| <= j {
        assert a[i] in a && b[j - |a|] in b;
      }
    }
  }

  /** `out` are the frames the client holds, `dropped` the frames nobody will ever see again. */
  ghost predicate Partition(s: Supply, all: set<PhysAddr>, out: set<PhysAddr>, dropped: set<PhysAddr>) {
    && |s.free| <= MAX_FREE_FRAMES && !s.wraps
    && NoDuplicates(s.free) && NoDuplicates(s.pending)
    && Elements(s.free) + Elements(s.pending) + out + dropped == all
    && (forall f :: f in s.free ==> f !in s.pending && f !in out && f !in dropped)
    && (forall f :: f in s.pending ==> f !in out && f !in dropped)
    && out !! dropped
  }

  /** Allocation hands out a frame that nobody held, and fails only when every frame is held or lost. */
  lemma AllocKeepsPartition(s: Supply, all: set<PhysAddr>, out: set<PhysAddr>, dropped: set<PhysAddr>)
    requires Partition(s, all, out, dropped)
    ensures Alloc(s).1.None? ==> Alloc(s).0 == s && all == out + dropped
    ensures Alloc(s).1.Some? ==>
              var f := Alloc(s).1.value;
              f in all && f !in out && f !in dropped && Partition(Alloc(s).0, all, out + {f}, dropped)
  {
  }

  /** Returning a held frame puts it back in the supply, or loses it when the stack is full. */
  lemma FreeKeepsPartition(s: Supply, all: set<PhysAddr>, out: set<PhysAddr>, dropped: set<PhysAddr>, f: PhysAddr)
    requires Partition(s, all, out, dropped) && f in out
    ensures |s.free| < MAX_FREE_FRAMES ==> Partition(Free(s, f), all, out - {f}, dropped) && f in Free(s, f).free
    ensures |s.free| >= MAX_FREE_FRAMES ==> Partition(Free(s, f), all, out - {f}, dropped + {f})
  {
  }

  /** The stack holds 128 frames and is last in, first out; a frame returned to a full one is gone. */
  lemma LastInFirstOut(s: Supply, f: PhysAddr)
    ensures |s.free| < 128 ==> Alloc(Free(s, f)) == (s, Some(f))
    ensures |s.free| >= 128 ==> Free(s, f) == s
  {
  }

  /** The supply after `n` allocations. */
  function AllocMany(s: Supply, n: nat): Supply {
    if n == 0 then s else Alloc(AllocMany(s, n - 1)).0
  }

  /** A batch that fits comes back in reverse order, and then the supply is as it was. */
  lemma {:induction false} ReturnedInReverse(s: Supply, fs: seq<PhysAddr>, n: nat)
    requires |s.free| + |fs| <= 128 && n <= |fs|
    ensures AllocMany(FreeAll(s, fs), n) == s.(free := s.free + fs[..|fs| - n])
    ensures n < |fs| ==> Alloc(AllocMany(FreeAll(s, fs), n)).1 == Some(fs[|fs| - 1 - n])
    decreases n
  {
    FreeAllShape(s, fs);
    if n > 0 {
      ReturnedInReverse(s, fs, n - 1);
      PopLast(s, fs, |fs| - n);
    } else {
      assert fs[..|fs|] == fs;
    }
    if n < |fs| {
      PopLast(s, fs, |fs| - 1 - n);
    }
  }

  lemma PopLast(s: Supply, fs: seq<PhysAddr>, k: nat)
    requires k < |fs|
    ensures Alloc(s.(free := s.free + fs[..k + 1])) == (s.(free := s.free + fs[..k]), Some(fs[k]))
  {
    assert s.free + fs[..k + 1] == (s.free + fs[..k]) + [fs[k]];
  }

  /** How many frames of a batch still fit on the stack. */
  function Room(s: Supply, fs: seq<PhysAddr>): nat {
    if |s.free| >= MAX_FREE_FRAMES then 0
    else if |s.free| + |fs| <= MAX_FREE_FRAMES then |fs|
    else MAX_FREE_FRAMES - |s.free|
  }

  lemma {:induction false} FreeAllShape(s: Supply, fs: seq<PhysAddr>)
    ensures FreeAll(s, fs) == s.(free := s.free + fs[..Room(s, fs)])
    decreases |fs|
  {
    if fs != [] {
      FreeAllShape(Free(s, fs[0]), fs[1..]);
      if |s.free| < MAX_FREE_FRAMES {
        assert fs[..Room(s, fs)] == [fs[0]] + fs[1..][..Room(s, fs) - 1];
      }
    }
  }

  /** Returning a batch of held frames pushes as many as fit, in order, and drops exactly the rest. */
  lemma FreeAllKeepsPartition(s: Supply, all: set<PhysAddr>, out: set<PhysAddr>, dropped: set<PhysAddr>, fs: seq<PhysAddr>)
    requires Partition(s, all, out, dropped)
    requires NoDuplicates(fs) && Elements(fs) <= out
    ensures FreeAll(s, fs) == s.(free := s.free + fs[..Room(s, fs)])
    ensures Partition(FreeAll(s, fs), all, out - Elements(fs), dropped + Elements(fs[Room(s, fs)..]))
  {
    FreeAllShape(s, fs);
    var kept, lost := fs[..Room(s, fs)], fs[Room(s, fs)..];
    SplitElements(fs, Room(s, fs));
    assert forall x :: x in fs <==> x in Elements(fs);
    PushKeepsPartition(s, all, out, dropped, kept, Elements(lost));
    assert out - Elements(kept) - Elements(lost) == out - Elements(fs);
  }

  lemma SplitElements(fs: seq<PhysAddr>, k: nat)
    requires k <= |fs|
    ensures Elements(fs) == Elements(fs[..k]) + Elements(fs[k..])
    ensures NoDuplicates(fs) ==> NoDuplicates(fs[..k]) && Elements(fs[..k]) !! Elements(fs[k..])
  {
  }

  /** Some held frames go onto the stack, others are lost. */
  lemma PushKeepsPartition(s: Supply, all: set<PhysAddr>, out: set<PhysAddr>, dropped: set<PhysAddr>,
                           kept: seq<PhysAddr>, lost: set<PhysAddr>)
    requires Partition(s, all, out, dropped) && |s.free| + |kept| <= MAX_FREE_FRAMES
    requires NoDuplicates(kept) && Elements(kept) <= out && lost <= out && Elements(kept) !! lost
    ensures Partition(s.(free := s.free + kept), all, out - Elements(kept) - lost, dropped + lost)
  {
    assert forall x :: x in kept <==> x in Elements(kept);
    NoDuplicatesConcat(s.free, kept);
    assert Elements(s.free + kept) == Elements(s.free) + Elements(kept);
  }

  lemma {:induction false} FreeAllAppend(s: Supply, fs: seq<PhysAddr>, gs: seq<PhysAddr>)
    ensures FreeAll(s, fs + gs) == FreeAll(FreeAll(s, fs), gs)
    decreases |fs|
  {
    if fs == [] {
      assert fs + gs == gs;
    } else {
      assert (fs + gs)[1..] == fs[1..] + gs;
      FreeAllAppend(Free(s, fs[0]), fs[1..], gs);
    }
  }

  // ---- Runs of a client -----------------------------------------------------

  datatype Request = Take | Give(frame: PhysAddr)

  /** The client's own book-keeping beside the supply. */
  datatype Books = Books(s: Supply, out: set<PhysAddr>, dropped: set<PhysAddr>)

  function Serve(b: Books, q: Request): Books {
    match q
    case Take =>
      var (s', r) := Alloc(b.s);
      if r.Some? then Books(s', b.out + {r.value}, b.dropped) else b.(s := s')
    case Give(f) =>
      Books(Free(b.s, f), b.out - {f}, if |b.s.free| < MAX_FREE_FRAMES then b.dropped else b.dropped + {f})
  }

  function ServeAll(b: Books, qs: seq<Request>): Books {
    if qs == [] then b else Serve(ServeAll(b, qs[..|qs| - 1]), qs[|qs| - 1])
  }

  /** The client gives back only what it holds. */
  ghost predicate Honest(b: Books, qs: seq<Request>) {
    forall n :: 0 <= n < |qs| && qs[n].Give? ==> qs[n].frame in ServeAll(b, qs[..n]).out
  }

  /**
   Frame conservation over every run of an honest client: nothing is handed out
   twice, nothing appears from nowhere, and what is missing is accounted for.
   */
  lemma {:induction false} ConservationOverRuns(b: Books, qs: seq<Request>, all: set<PhysAddr>)
    requires Partition(b.s, all, b.out, b.dropped) && Honest(b, qs)
    ensures var e := ServeAll(b, qs); Partition(e.s, all, e.out, e.dropped)
    decreases |qs|
  {
    if qs != [] {
      var n := |qs| - 1;
      var init := qs[..n];
      assert forall k :: 0 <= k < n ==> init[..k] == qs[..k];
      ConservationOverRuns(b, init, all);
      var p := ServeAll(b, init);
      AllocKeepsPartition(p.s, all, p.out, p.dropped);
      if qs[n].Give? {
        assert qs[..n] == init;
        FreeKeepsPartition(p.s, all, p.out, p.dropped, qs[n].frame);
      }
    }
  }
}
