/**
 Physical memory as the page-table code sees it: 64-bit words, addressed by frame and
 index.  `Decoded` is the abstraction the proofs work on.
 */
module PhysicalMemory {
  import opened Wrappers
  import opened Pte
  import opened PageTree
  import opened TableEdits
  import opened Creation

  /** Words by frame and index; an absent word reads as zero. */
  type Words = map<(PhysAddr, Index), bv64>

  function Decoded(w: Words): Memory {
    map k | k in w :: Decode(w[k])
  }

  function WordAt(w: Words, f: PhysAddr, i: Index): bv64 {
    if (f, i) in w then w[(f, i)] else 0
  }

  /** From `w` to `w'` all words of frame `f` became zero and no other word changed. */
  ghost predicate ZeroedIn(w: Words, w': Words, f: PhysAddr) {
    && (forall i :: WordAt(w', f, i) == 0)
    && (forall g, i :: g != f ==> WordAt(w', g, i) == WordAt(w, g, i))
  }

  /** From `w` to `w'` words 256 to 511 of `dst` became those of `src` and no other word changed. */
  ghost predicate CopiedIn(w: Words, w': Words, src: PhysAddr, dst: PhysAddr) {
    && (forall i :: i >= KERNEL_PML4_START ==> WordAt(w', dst, i) == WordAt(w, src, i))
    && (forall g, i :: g != dst || i < KERNEL_PML4_START ==> WordAt(w', g, i) == WordAt(w, g, i))
  }

  lemma ReadDecodes(w: Words, f: PhysAddr, i: Index)
    ensures Rd(Decoded(w), f, i) == Decode(WordAt(w, f, i))
  {
  }

  lemma WriteDecodes(w: Words, f: PhysAddr, i: Index, x: bv64)
    ensures Decoded(w[(f, i) := x]) == Wr(Decoded(w), f, i, Decode(x))
  {
  }

  /** The words outside a frame. */
  function Without(w: Words, f: PhysAddr): Words {
    map k | k in w && k.0 != f :: w[k]
  }

  lemma ZeroDecodes(w: Words, f: PhysAddr)
    ensures Decoded(Without(w, f)) == Zero(Decoded(w), f)
  {
  }

  lemma ZeroTwice(m: Memory, f: PhysAddr)
    ensures Zero(Zero(m, f), f) == Zero(m, f)
  {
  }

  /** The words of `src` from index 256 on, as words of `dst`. */
  function UpperHalf(w: Words, src: PhysAddr, dst: PhysAddr): Words {
    map k | k in w && k.0 == src && k.1 >= KERNEL_PML4_START :: (dst, k.1) := w[k]
  }

  function Spliced(w: Words, src: PhysAddr, dst: PhysAddr): Words {
    (map k | k in w && !(k.0 == dst && k.1 >= KERNEL_PML4_START) :: w[k]) + UpperHalf(w, src, dst)
  }

  lemma UpperHalfWords(w: Words, src: PhysAddr, dst: PhysAddr)
    ensures var up := UpperHalf(w, src, dst);
            forall f, i :: ((f, i) in up <==> f == dst && (src, i) in w && i >= KERNEL_PML4_START)
                           && ((f, i) in up ==> up[(f, i)] == w[(src, i)])
  {
  }

  lemma SplicedWords(w: Words, src: PhysAddr, dst: PhysAddr)
    ensures CopiedIn(w, Spliced(w, src, dst), src, dst)
  {
    UpperHalfWords(w, src, dst);
  }

  lemma SplicedDecodes(w: Words, src: PhysAddr, dst: PhysAddr)
    ensures Decoded(Spliced(w, src, dst)) == CopyUpper(Decoded(w), src, dst)
  {
    UpperHalfWords(w, src, dst);
    UpperHalfReads(Decoded(w), src, dst);
    SameMap(Decoded(Spliced(w, src, dst)), CopyUpper(Decoded(w), src, dst));
  }

  lemma SameMap(a: Memory, b: Memory)
    requires forall f, i :: ((f, i) in a <==> (f, i) in b) && ((f, i) in a ==> a[(f, i)] == b[(f, i)])
    ensures a == b
  {
    forall k: (PhysAddr, Index) ensures (k in a <==> k in b) && (k in a ==> a[k] == b[k]) {
      var (f, i) := k;
      assert (f, i) in a <==> (f, i) in b;
    }
  }

  lemma TableWordDecodes(w: Words, f: PhysAddr, i: Index, frame: PhysAddr, user: bool)
    ensures Decoded(w[(f, i) := TableWord(frame, user)]) == Wr(Decoded(w), f, i, TableEntry(frame, user))
  {
  }

  lemma LeafWordDecodes(w: Words, f: PhysAddr, i: Index, paddr: bv64, flags: MapFlags, nxe: bool)
    ensures Decoded(w[(f, i) := LeafWord(paddr, flags, nxe)]) ==
            Wr(Decoded(w), f, i, Entry(PhysAddr(paddr & ADDR_MASK), FlagsToAttr(flags, nxe)))
  {
    LeafDecode(paddr, flags, nxe);
    WriteDecodes(w, f, i, LeafWord(paddr, flags, nxe));
  }

  lemma AttributesDecode(w: Words, f: PhysAddr, i: Index, flags: MapFlags, nxe: bool)
    ensures Decoded(w[(f, i) := LeafWord(WordAt(w, f, i), flags, nxe)]) ==
            Wr(Decoded(w), f, i, Entry(Rd(Decoded(w), f, i).target, FlagsToAttr(flags, nxe)))
  {
    ReadDecodes(w, f, i);
    LeafWordDecodes(w, f, i, WordAt(w, f, i), flags, nxe);
  }

  class PhysMem {
    var words: Words

    constructor ()
      ensures words == map[]
    {
      words := map[];
    }

    /** Read a word and test its bits: present, large page, and the frame it names. */
    method Read(f: PhysAddr, i: Index) returns (present: bool, huge: bool, target: PhysAddr)
      ensures var e := Rd(Decoded(words), f, i);
              present == e.attr.present && huge == e.attr.huge && target == e.target
    {
      var x := if (f, i) in words then words[(f, i)] else 0;
      ReadDecodes(words, f, i);
      present, huge, target := x & PTE_P != 0, x & PTE_PS != 0, PhysAddr(x & ADDR_MASK);
    }

    method Store(f: PhysAddr, i: Index, x: bv64)
      modifies this
      ensures words == old(words)[(f, i) := x]
    {
      words := words[(f, i) := x];
    }

    /** Link a table: frame address, present, writable, and user if asked for. */
    method WriteTable(f: PhysAddr, i: Index, frame: PhysAddr, user: bool)
      modifies this
      ensures Decoded(words) == Wr(old(Decoded(words)), f, i, TableEntry(frame, user))
      ensures words == old(words)[(f, i) := WordAt(words, f, i)] && StoredLink(WordAt(words, f, i), frame.raw, user)
    {
      TableWordDecodes(words, f, i, frame, user);
      LinkByBit(TableWord(frame, user), frame, user);
      Store(f, i, TableWord(frame, user));
    }

    /** Bind a page: frame address and the bits of the mapping intent. */
    method WriteLeaf(f: PhysAddr, i: Index, paddr: bv64, flags: MapFlags, nxe: bool)
      modifies this
      ensures Decoded(words) == Wr(old(Decoded(words)), f, i, Entry(PhysAddr(paddr & ADDR_MASK), FlagsToAttr(flags, nxe)))
      ensures words == old(words)[(f, i) := WordAt(words, f, i)] && StoredLeaf(WordAt(words, f, i), paddr, flags, nxe)
    {
      LeafWordDecodes(words, f, i, paddr, flags, nxe);
      LeafStored(paddr, flags, nxe);
      Store(f, i, LeafWord(paddr, flags, nxe));
    }

    /** The end of `map_4k`: refuse a bound page, or store its word. */
    method BindLeaf(f: PhysAddr, i: Index, paddr: bv64, flags: MapFlags, nxe: bool) returns (r: Result<()>)
      modifies this
      ensures old(Rd(Decoded(words), f, i).attr.present) ==> r == Err(AlreadyMapped) && words == old(words)
      ensures !old(Rd(Decoded(words), f, i).attr.present) ==>
                r == Ok(()) && Decoded(words) == Wr(old(Decoded(words)), f, i, Entry(PhysAddr(paddr & ADDR_MASK), FlagsToAttr(flags, nxe)))
      ensures r.Ok? ==> StoredLeaf(WordAt(words, f, i), paddr, flags, nxe)
    {
      var present, _, _ := Read(f, i);
      if present {
        return Err(AlreadyMapped);
      }
      WriteLeaf(f, i, paddr, flags, nxe);
      return Ok(());
    }

    /** Replace the attributes of a word and keep its frame. */
    method WriteAttributes(f: PhysAddr, i: Index, flags: MapFlags, nxe: bool)
      modifies this
      ensures Decoded(words) == Wr(old(Decoded(words)), f, i, Entry(Rd(old(Decoded(words)), f, i).target, FlagsToAttr(flags, nxe)))
      ensures words == old(words)[(f, i) := WordAt(words, f, i)]
      ensures StoredLeaf(WordAt(words, f, i), WordAt(old(words), f, i), flags, nxe)
    {
      AttributesDecode(words, f, i, flags, nxe);
      LeafStored(WordAt(words, f, i), flags, nxe);
      Store(f, i, LeafWord(WordAt(words, f, i), flags, nxe));
    }

    method Clear(f: PhysAddr, i: Index)
      modifies this
      ensures Decoded(words) == Wr(old(Decoded(words)), f, i, ZERO_ENTRY)
    {
      DecodeZero();
      WriteDecodes(words, f, i, 0);
      words := words[(f, i) := 0];
    }

    /** `zero_frame`: all 512 words of a frame. */
    method ZeroFrame(f: PhysAddr)
      modifies this
      ensures ZeroedIn(old(words), words, f)
      ensures Decoded(words) == Zero(old(Decoded(words)), f)
    {
      ZeroDecodes(words, f);
      words := Without(words, f);
    }

    /** Copy words 256 to 511 of one frame over those of another. */
    method CopyUpperHalf(src: PhysAddr, dst: PhysAddr)
      modifies this
      ensures CopiedIn(old(words), words, src, dst)
      ensures Decoded(words) == CopyUpper(old(Decoded(words)), src, dst)
    {
      SplicedWords(words, src, dst);
      SplicedDecodes(words, src, dst);
      words := Spliced(words, src, dst);
    }
  }
}
