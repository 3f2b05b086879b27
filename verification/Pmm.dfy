/** The physical frame allocator: a bitmap of reserved frames, changed in place. */
module Pmm {
  import opened Basics
  import opened PageTables

  /** One 64-bit word of the bitmap, least significant bit first; a set bit is a reserved frame. */
  type Word = w: seq<bool> | |w| == 64 witness seq(64, i => true)

  function AllSet(): (w: Word)
    ensures forall k :: 0 <= k < 64 ==> w[k]
  {
    seq(64, i => true)
  }

  /** `trailing_zeros` of the complement: the position of the lowest clear bit. */
  function FirstClear(w: Word, from: nat): (k: nat)
    requires from <= 64
    requires forall j :: 0 <= j < from ==> w[j]
    ensures k <= 64
    ensures forall j :: 0 <= j < k ==> w[j]
    ensures k < 64 ==> !w[k]
    decreases 64 - from
  {
    if from == 64 || !w[from] then from else FirstClear(w, from + 1)
  }

  predicate Within(f: nat, lo: int, hi: int) {
    lo <= f < hi
  }

  /** The frames from `lo` up to but not including `hi`. */
  ghost function Frames(lo: nat, hi: int): set<nat> {
    set f | lo <= f < hi && Within(f, lo, hi)
  }

  predicate ReservedIn(words: seq<Word>, f: nat)
    requires f < 64 * |words|
  {
    words[f / 64][f % 64]
  }

  /** The frames whose bit is clear. */
  ghost function FreeBits(words: seq<Word>): set<nat> {
    set f | 0 <= f < 64 * |words| && !ReservedIn(words, f)
  }

  /** Writing one bit of one word changes the set of free frames at exactly one frame. */
  lemma SetBit(words: seq<Word>, i: nat, bit: nat, value: bool)
    requires i < |words| && bit < 64
    ensures FreeBits(words[i := words[i][bit := value]])
            == if value then FreeBits(words) - {i * 64 + bit} else FreeBits(words) + {i * 64 + bit}
  {
    var words' := words[i := words[i][bit := value]];
    var f := i * 64 + bit;
    assert f / 64 == i && f % 64 == bit;
    forall g | 0 <= g < 64 * |words|
      ensures ReservedIn(words', g) == if g == f then value else ReservedIn(words, g)
    {
      if g / 64 == i && g % 64 == bit {
        assert g == f;
      }
    }
  }

  class BitmapAllocator {
    const bitmap: array<Word>

    /** Every frame starts reserved; memory is freed into the pool explicitly. */
    constructor (words: nat)
      ensures fresh(bitmap) && bitmap.Length == words
      ensures FreeSet() == {}
    {
      bitmap := new Word[words](i => AllSet());
    }

    ghost function Capacity(): nat {
      64 * bitmap.Length
    }

    /** The abstract state: the set of frames the pool may hand out. */
    ghost function FreeSet(): set<nat>
      reads bitmap
    {
      FreeBits(bitmap[..])
    }

    method AllocateNextFrame() returns (r: Option<nat>)
      modifies bitmap
      ensures r.None? <==> old(FreeSet()) == {}
      ensures r.Some? ==> r.value in old(FreeSet()) && forall g :: g in old(FreeSet()) ==> r.value <= g
      ensures FreeSet() == old(FreeSet()) - (if r.Some? then {r.value} else {})
    {
      var i := 0;
      while i < bitmap.Length
        invariant 0 <= i <= bitmap.Length
        invariant bitmap[..] == old(bitmap[..])
        invariant forall f :: 0 <= f < 64 * i ==> ReservedIn(bitmap[..], f)
      {
        var bit := FirstClear(bitmap[i], 0);
        if bit < 64 {
          var f := i * 64 + bit;
          assert f / 64 == i && f % 64 == bit;
          assert !ReservedIn(bitmap[..], f);
          assert f in FreeSet();
          forall g | 0 <= g < f ensures ReservedIn(bitmap[..], g) {
            if g >= 64 * i {
              assert g / 64 == i && g % 64 < bit;
            }
          }
          SetBit(bitmap[..], i, bit, true);
          bitmap[i] := bitmap[i][bit := true];
          assert bitmap[..] == old(bitmap[..])[i := old(bitmap[i])[bit := true]];
          return Some(f);
        }
        forall f | 64 * i <= f < 64 * (i + 1) ensures ReservedIn(bitmap[..], f) {
          assert f / 64 == i;
        }
        i := i + 1;
      }
      r := None;
    }

    method ReserveFrame(f: nat)
      modifies bitmap
      ensures FreeSet() == old(FreeSet()) - {f}
    {
      if f / 64 < bitmap.Length {
        SetBit(bitmap[..], f / 64, f % 64, true);
        bitmap[f / 64] := bitmap[f / 64][f % 64 := true];
        assert bitmap[..] == old(bitmap[..])[f / 64 := old(bitmap[f / 64])[f % 64 := true]];
      }
    }

    /** Frame 0 and frames beyond the bitmap are ignored. */
    method FreeFrame(f: nat)
      modifies bitmap
      ensures FreeSet() == old(FreeSet()) + (if 0 < f < Capacity() then {f} else {})
    {
      if f == 0 {
        return;
      }
      if f / 64 < bitmap.Length {
        SetBit(bitmap[..], f / 64, f % 64, false);
        bitmap[f / 64] := bitmap[f / 64][f % 64 := false];
        assert bitmap[..] == old(bitmap[..])[f / 64 := old(bitmap[f / 64])[f % 64 := false]];
      }
    }

    method ReserveRange(start: nat, count: nat)
      modifies bitmap
      ensures FreeSet() == old(FreeSet()) - Frames(start, start + count)
    {
      for i := 0 to count
        invariant FreeSet() == old(FreeSet()) - Frames(start, start + i)
      {
        ReserveFrame(start + i);
      }
    }

    method FreeRange(start: nat, count: nat)
      modifies bitmap
      ensures FreeSet() == old(FreeSet()) + (Frames(start, start + count) * Frames(1, Capacity()))
    {
      for i := 0 to count
        invariant FreeSet() == old(FreeSet()) + (Frames(start, start + i) * Frames(1, Capacity()))
      {
        FreeFrame(start + i);
      }
    }
  }

  // ---------------------------------------------------------------------------
  // Boot: which frames enter the pool, and which never do
  // ---------------------------------------------------------------------------

  const PMM_WORDS: nat := 1024
  const LOW_FRAMES: nat := 256

  const MEMMAP_USABLE: nat := 0
  const MEMMAP_ACPI_RECLAIMABLE: nat := 2
  const MEMMAP_BOOTLOADER_RECLAIMABLE: nat := 5

  datatype MemmapEntry = MemmapEntry(base: nat, length: nat, typ: nat)

  ghost function EntryFrames(e: MemmapEntry): set<nat> {
    Frames(e.base / PAGE_SIZE, e.base / PAGE_SIZE + e.length / PAGE_SIZE)
  }

  /** Byte `b` lies in the region. */
  predicate InRegion(e: MemmapEntry, b: nat) {
    e.base <= b < e.base + e.length
  }

  predicate ByteOf(b: nat, f: nat) {
    f * 4096 <= b < f * 4096 + 4096
  }

  /** All 4096 bytes of frame `f` lie in the region. */
  ghost predicate Inside(e: MemmapEntry, f: nat) {
    forall b: nat :: ByteOf(b, f) ==> InRegion(e, b)
  }

  lemma InsideIff(e: MemmapEntry, f: nat)
    ensures Inside(e, f) <==> e.base <= f * 4096 && f * 4096 + 4096 <= e.base + e.length
  {
    if Inside(e, f) {
      assert ByteOf(f * 4096, f) && ByteOf(f * 4096 + 4095, f);
      assert InRegion(e, f * 4096) && InRegion(e, f * 4096 + 4095);
    }
  }

  /** Base and length are rounded down apart. A frame of the region that is not inside it is the first one
      of a region of a page or more whose base is not aligned; a frame inside it that is left out is the
      one after the last, when the two remainders make up a page. */
  lemma EntryInBytes(e: MemmapEntry, f: nat)
    ensures f in EntryFrames(e) && !Inside(e, f) <==> f == e.base / 4096 && e.base % 4096 != 0 && e.length >= 4096
    ensures Inside(e, f) && f !in EntryFrames(e) <==>
            f == e.base / 4096 + e.length / 4096 && e.base % 4096 + e.length % 4096 >= 4096 && e.length >= 4096
  {
    InsideIff(e, f);
    var first, count := e.base / 4096, e.length / 4096;
    assert f in EntryFrames(e) <==> Within(f, first, first + count);
    assert e.base == first * 4096 + e.base % 4096 && e.length == count * 4096 + e.length % 4096;
  }

  /** So the frames taken for a region are those inside it if and only if its base is aligned or it is
      shorter than a page. */
  lemma EntryExactIff(e: MemmapEntry)
    ensures (forall f: nat :: f in EntryFrames(e) <==> Inside(e, f)) <==> e.base % 4096 == 0 || e.length < 4096
  {
    hide EntryFrames, Inside;
    forall f: nat {
      EntryInBytes(e, f);
    }
    EntryInBytes(e, e.base / 4096);
  }

  predicate AlignedBases(entries: seq<MemmapEntry>, types: set<nat>) {
    forall i :: 0 <= i < |entries| && entries[i].typ in types ==> entries[i].base % 4096 == 0
  }

  /** Frame `f` lies inside some region whose type is in `types`. */
  ghost predicate InsideSome(entries: seq<MemmapEntry>, types: set<nat>, f: nat) {
    exists i :: 0 <= i < |entries| && entries[i].typ in types && Inside(entries[i], f)
  }

  lemma {:induction false} RegionsInBytes(entries: seq<MemmapEntry>, types: set<nat>, f: nat)
    requires AlignedBases(entries, types)
    ensures f in RegionFrames(entries, types) <==> InsideSome(entries, types, f)
  {
    if entries != [] {
      hide EntryFrames, Inside;
      var rest, last := entries[..|entries| - 1], entries[|entries| - 1];
      RegionsInBytes(rest, types, f);
      EntryExactIff(last);
      if InsideSome(rest, types, f) {
        var i :| 0 <= i < |rest| && rest[i].typ in types && Inside(rest[i], f);
        assert entries[i] == rest[i];
      }
      if InsideSome(entries, types, f) {
        var i :| 0 <= i < |entries| && entries[i].typ in types && Inside(entries[i], f);
        assert i < |rest| ==> rest[i] == entries[i];
      }
    }
  }

  lemma {:induction false} RegionMember(entries: seq<MemmapEntry>, types: set<nat>, f: nat)
    ensures f in RegionFrames(entries, types) <==>
            exists i :: 0 <= i < |entries| && entries[i].typ in types && f in EntryFrames(entries[i])
  {
    if entries != [] {
      hide EntryFrames;
      var rest := entries[..|entries| - 1];
      RegionMember(rest, types, f);
      if i :| 0 <= i < |entries| && entries[i].typ in types && f in EntryFrames(entries[i]) {
        assert i < |rest| ==> rest[i] == entries[i];
      }
    }
  }

  /** Region `i` is taken from before its base on. */
  predicate StartsEarly(entries: seq<MemmapEntry>, types: set<nat>, i: nat)
    requires i < |entries|
  {
    entries[i].typ in types && entries[i].base % 4096 != 0 && entries[i].length >= 4096
  }

  /** In general, the frames from `lo` up to `hi` that the regions give all lie inside one of them if and
      only if so does the first frame of every region whose base is not aligned. */
  lemma GivenInsideIff(entries: seq<MemmapEntry>, types: set<nat>, lo: nat, hi: nat)
    ensures (forall f: nat :: f in RegionFrames(entries, types) && lo <= f < hi ==> InsideSome(entries, types, f)) <==>
            (forall i :: 0 <= i < |entries| && StartsEarly(entries, types, i) ==>
              var f := entries[i].base / 4096; lo <= f < hi ==> InsideSome(entries, types, f))
  {
    hide EntryFrames, Inside, RegionFrames;
    forall i | 0 <= i < |entries| && StartsEarly(entries, types, i)
      ensures entries[i].base / 4096 in RegionFrames(entries, types)
    {
      EntryInBytes(entries[i], entries[i].base / 4096);
      RegionMember(entries, types, entries[i].base / 4096);
    }
    forall f: nat | f in RegionFrames(entries, types)
      ensures InsideSome(entries, types, f) ||
              exists i :: 0 <= i < |entries| && StartsEarly(entries, types, i) && f == entries[i].base / 4096
    {
      RegionMember(entries, types, f);
      var i :| 0 <= i < |entries| && entries[i].typ in types && f in EntryFrames(entries[i]);
      EntryInBytes(entries[i], f);
      assert Inside(entries[i], f) || StartsEarly(entries, types, i);
    }
  }

  /** The frames are those of the low megabyte's end up to `capacity` that lie inside a region. */
  ghost predicate InBytes(frames: set<nat>, entries: seq<MemmapEntry>, types: set<nat>, capacity: nat) {
    forall f: nat :: f in frames <==> 256 <= f < capacity && InsideSome(entries, types, f)
  }

  lemma InitInBytes(entries: seq<MemmapEntry>, capacity: nat)
    requires AlignedBases(entries, {0})
    ensures InBytes((RegionFrames(entries, {MEMMAP_USABLE}) * Frames(1, capacity)) - Frames(0, LOW_FRAMES), entries,
                    {0}, capacity)
  {
    hide RegionFrames, InsideSome;
    var free := (RegionFrames(entries, {MEMMAP_USABLE}) * Frames(1, capacity)) - Frames(0, LOW_FRAMES);
    forall f: nat ensures f in free <==> 256 <= f < capacity && InsideSome(entries, {0}, f) {
      RegionsInBytes(entries, {0}, f);
      assert Within(f, 1, capacity) <==> 1 <= f < capacity;
      assert Within(f, 0, LOW_FRAMES) <==> f < 256;
    }
  }

  /** What reclaiming adds, in bytes: the frames inside a reclaimable region, from the low megabyte on. */
  ghost predicate Gained(free: set<nat>, free': set<nat>, entries: seq<MemmapEntry>, types: set<nat>, capacity: nat) {
    forall f: nat :: f in free' <==> 256 <= f && (f in free || (f < capacity && InsideSome(entries, types, f)))
  }

  lemma ReclaimInBytes(free: set<nat>, entries: seq<MemmapEntry>, capacity: nat)
    requires AlignedBases(entries, {2, 5})
    ensures Gained(free, ReclaimedPool(free, entries, capacity), entries, {2, 5}, capacity)
  {
    hide RegionFrames, InsideSome;
    var free' := ReclaimedPool(free, entries, capacity);
    forall f: nat
      ensures f in free' <==> 256 <= f && (f in free || (f < capacity && InsideSome(entries, {2, 5}, f)))
    {
      RegionsInBytes(entries, {2, 5}, f);
      assert Within(f, 1, capacity) <==> 1 <= f < capacity;
      assert Within(f, 0, LOW_FRAMES) <==> f < 256;
    }
  }

  /** The frames of all regions whose type is in `types`. */
  ghost function RegionFrames(entries: seq<MemmapEntry>, types: set<nat>): set<nat> {
    if entries == [] then {}
    else
      RegionFrames(entries[..|entries| - 1], types)
      + (if entries[|entries| - 1].typ in types then EntryFrames(entries[|entries| - 1]) else {})
  }

  method FreeRegions(pmm: BitmapAllocator, entries: seq<MemmapEntry>, types: set<nat>)
    modifies pmm.bitmap
    ensures pmm.FreeSet() == old(pmm.FreeSet()) + (RegionFrames(entries, types) * Frames(1, pmm.Capacity()))
  {
    for i := 0 to |entries|
      invariant pmm.FreeSet() == old(pmm.FreeSet()) + (RegionFrames(entries[..i], types) * Frames(1, pmm.Capacity()))
    {
      assert entries[..i + 1][..i] == entries[..i];
      if entries[i].typ in types {
        pmm.FreeRange(entries[i].base / PAGE_SIZE, entries[i].length / PAGE_SIZE);
      }
    }
    assert entries[..|entries|] == entries;
  }

  method InitFromMemoryMap(pmm: BitmapAllocator, entries: seq<MemmapEntry>)
    modifies pmm.bitmap
    ensures pmm.FreeSet() == (old(pmm.FreeSet()) + (RegionFrames(entries, {MEMMAP_USABLE}) * Frames(1, pmm.Capacity())))
                             - Frames(0, LOW_FRAMES)
    ensures old(pmm.FreeSet()) == {} && AlignedBases(entries, {0}) ==>
            InBytes(pmm.FreeSet(), entries, {0}, pmm.Capacity())
  {
    hide RegionFrames, InBytes;
    FreeRegions(pmm, entries, {MEMMAP_USABLE});
    pmm.ReserveRange(0, LOW_FRAMES);
    if old(pmm.FreeSet()) == {} && AlignedBases(entries, {0}) {
      InitInBytes(entries, pmm.Capacity());
      assert pmm.FreeSet() ==
             RegionFrames(entries, {MEMMAP_USABLE}) * Frames(1, pmm.Capacity()) - Frames(0, LOW_FRAMES);
    }
  }

  method InitStatic(pmm: BitmapAllocator)
    modifies pmm.bitmap
    ensures pmm.FreeSet() == old(pmm.FreeSet()) + (Frames(0, 64 * PMM_WORDS) * Frames(1, pmm.Capacity()))
  {
    pmm.FreeRange(0, 64 * PMM_WORDS);
  }

  method ReclaimBootMemory(pmm: BitmapAllocator, entries: seq<MemmapEntry>)
    modifies pmm.bitmap
    ensures pmm.FreeSet() == ReclaimedPool(old(pmm.FreeSet()), entries, pmm.Capacity())
    ensures AlignedBases(entries, {2, 5}) ==> Gained(old(pmm.FreeSet()), pmm.FreeSet(), entries, {2, 5}, pmm.Capacity())
  {
    hide RegionFrames, Gained;
    FreeRegions(pmm, entries, {MEMMAP_ACPI_RECLAIMABLE, MEMMAP_BOOTLOADER_RECLAIMABLE});
    pmm.ReserveRange(0, LOW_FRAMES);
    if AlignedBases(entries, {2, 5}) {
      ReclaimInBytes(old(pmm.FreeSet()), entries, pmm.Capacity());
    }
  }

  /** The byte ranges the kernel must keep: its image, its heap and the ramdisk. */
  datatype BootRanges = BootRanges(kernelStart: nat, kernelEnd: nat, heapStart: nat, heapSize: nat,
                                   ramdisk: Option<(nat, nat)>)

  ghost predicate BootByte(r: BootRanges, b: nat) {
    || b < 0x10_0000
    || r.kernelStart <= b < r.kernelEnd
    || r.heapStart <= b < r.heapStart + r.heapSize
    || (r.ramdisk.Some? && r.ramdisk.value.0 <= b < r.ramdisk.value.0 + r.ramdisk.value.1)
  }

  /** The frame after a range, in 64-bit arithmetic that wraps. */
  function EndFrame(hi: nat): nat {
    (hi + PAGE_SIZE - 1) % ADDRESS_LIMIT / PAGE_SIZE
  }

  ghost function Covering(lo: nat, hi: nat): set<nat> {
    Frames(lo / PAGE_SIZE, EndFrame(hi))
  }

  /** A range is covered if and only if rounding its end up does not wrap. */
  lemma CoveringIff(lo: nat, hi: nat)
    requires lo < hi && lo < ADDRESS_LIMIT && hi < 2 * ADDRESS_LIMIT
    ensures (forall b {:trigger b / PAGE_SIZE} :: lo <= b < hi ==> b / PAGE_SIZE in Covering(lo, hi)) <==>
            hi + PAGE_SIZE <= ADDRESS_LIMIT
  {
    if hi + PAGE_SIZE <= ADDRESS_LIMIT {
      forall b | lo <= b < hi ensures b / PAGE_SIZE in Covering(lo, hi) {
        assert Within(b / PAGE_SIZE, lo / PAGE_SIZE, EndFrame(hi));
      }
    } else {
      var last := hi - 1;
      WrappedEnd(hi);
      assert !Within(last / PAGE_SIZE, lo / PAGE_SIZE, EndFrame(hi));
    }
  }

  lemma WrappedEnd(hi: nat)
    requires ADDRESS_LIMIT - PAGE_SIZE < hi < 2 * ADDRESS_LIMIT
    ensures EndFrame(hi) <= (hi - 1) / PAGE_SIZE
  {
    var end := (hi + PAGE_SIZE - 1) % ADDRESS_LIMIT;
    assert end <= hi - 1;
  }

  /** No range ends so close to 2^64 that rounding its end up wraps. */
  predicate EndsFit(r: BootRanges) {
    && (r.kernelStart < r.kernelEnd ==> r.kernelEnd + PAGE_SIZE <= ADDRESS_LIMIT)
    && (r.heapSize > 0 ==> r.heapStart + r.heapSize + PAGE_SIZE <= ADDRESS_LIMIT)
    && (r.ramdisk.Some? && r.ramdisk.value.1 > 0 ==> r.ramdisk.value.0 + r.ramdisk.value.1 + PAGE_SIZE <= ADDRESS_LIMIT)
  }

  ghost function Protected(r: BootRanges): set<nat> {
    Frames(0, LOW_FRAMES) + Covering(r.kernelStart, r.kernelEnd) + Covering(r.heapStart, r.heapStart + r.heapSize)
    + (if r.ramdisk.Some? then Covering(r.ramdisk.value.0, r.ramdisk.value.0 + r.ramdisk.value.1) else {})
  }

  /** Rounding outward to whole frames leaves out no byte of the ranges. */
  lemma ProtectedCoversBytes(r: BootRanges, b: nat)
    requires BootByte(r, b) && EndsFit(r)
    ensures b / PAGE_SIZE in Protected(r)
  {
    var f := b / PAGE_SIZE;
    if b < 0x10_0000 {
      assert Within(f, 0, LOW_FRAMES);
    } else if r.kernelStart <= b < r.kernelEnd {
      CoveringIff(r.kernelStart, r.kernelEnd);
    } else if r.heapStart <= b < r.heapStart + r.heapSize {
      CoveringIff(r.heapStart, r.heapStart + r.heapSize);
    } else {
      CoveringIff(r.ramdisk.value.0, r.ramdisk.value.0 + r.ramdisk.value.1);
    }
  }

  method ReserveCovering(pmm: BitmapAllocator, lo: nat, hi: nat)
    modifies pmm.bitmap
    ensures pmm.FreeSet() == old(pmm.FreeSet()) - Covering(lo, hi)
  {
    var startFrame := lo / PAGE_SIZE;
    var endFrame := EndFrame(hi);
    if endFrame > startFrame {
      pmm.ReserveRange(startFrame, endFrame - startFrame);
    }
  }

  lemma FrameOfRange(lo: nat, hi: nat, f: nat) returns (b: nat)
    requires lo < hi && f in Covering(lo, hi)
    ensures lo <= b < hi && b / PAGE_SIZE == f
  {
    assert Within(f, lo / PAGE_SIZE, EndFrame(hi));
    assert (hi + PAGE_SIZE - 1) % ADDRESS_LIMIT <= hi + PAGE_SIZE - 1;
    b := if f * PAGE_SIZE < lo then lo else f * PAGE_SIZE;
  }

  /** And no frame is kept without a byte of them, when the ranges are not empty. */
  lemma ProtectedIsTight(r: BootRanges, f: nat) returns (b: nat)
    requires NonEmpty(r) && f in Protected(r)
    ensures BootByte(r, b) && b / PAGE_SIZE == f
  {
    if f in Frames(0, LOW_FRAMES) {
      assert Within(f, 0, LOW_FRAMES);
      b := f * PAGE_SIZE;
    } else if f in Covering(r.kernelStart, r.kernelEnd) {
      b := FrameOfRange(r.kernelStart, r.kernelEnd, f);
    } else if f in Covering(r.heapStart, r.heapStart + r.heapSize) {
      b := FrameOfRange(r.heapStart, r.heapStart + r.heapSize, f);
    } else {
      b := FrameOfRange(r.ramdisk.value.0, r.ramdisk.value.0 + r.ramdisk.value.1, f);
    }
  }

  method ProtectBootMemory(pmm: BitmapAllocator, r: BootRanges)
    modifies pmm.bitmap
    ensures pmm.FreeSet() == old(pmm.FreeSet()) - Protected(r)
  {
    pmm.ReserveRange(0, LOW_FRAMES);
    ReserveCovering(pmm, r.kernelStart, r.kernelEnd);
    ReserveCovering(pmm, r.heapStart, r.heapStart + r.heapSize);
    if r.ramdisk.Some? {
      ReserveCovering(pmm, r.ramdisk.value.0, r.ramdisk.value.0 + r.ramdisk.value.1);
    }
  }

  // ---------------------------------------------------------------------------
  // Runs of the pool after boot
  // ---------------------------------------------------------------------------

  ghost function ReclaimedPool(free: set<nat>, entries: seq<MemmapEntry>, capacity: nat): set<nat> {
    (free + (RegionFrames(entries, {MEMMAP_ACPI_RECLAIMABLE, MEMMAP_BOOTLOADER_RECLAIMABLE}) * Frames(1, capacity)))
    - Frames(0, LOW_FRAMES)
  }

  datatype Pool = Pool(free: set<nat>, held: set<nat>)

  datatype PoolOp = Take(got: Option<nat>) | Give(frame: nat) | Reclaim(entries: seq<MemmapEntry>)

  /** One call on the allocator, as its methods' contracts state it; `held` are the frames
      handed out and not given back. Any frame can be given back, held or not. */
  ghost predicate PoolStep(s: Pool, op: PoolOp, s': Pool, capacity: nat) {
    match op
    case Take(got) =>
      && (got.None? <==> s.free == {})
      && (got.Some? ==> got.value in s.free && forall g :: g in s.free ==> got.value <= g)
      && s' == (if got.Some? then Pool(s.free - {got.value}, s.held + {got.value}) else s)
    case Give(f) =>
      s' == Pool(s.free + (if 0 < f < capacity then {f} else {}), s.held - {f})
    case Reclaim(entries) =>
      s' == Pool(ReclaimedPool(s.free, entries, capacity), s.held)
  }

  /** Frames given back are not protected; reclaimed regions lie outside the protected ranges and
      outside frames in use. */
  ghost predicate Clean(s: Pool, op: PoolOp, keep: set<nat>) {
    match op
    case Take(_) => true
    case Give(f) => f !in keep
    case Reclaim(entries) =>
      var frames := RegionFrames(entries, {MEMMAP_ACPI_RECLAIMABLE, MEMMAP_BOOTLOADER_RECLAIMABLE});
      frames !! keep && frames !! s.held
  }

  /** Giving back a frame of the bitmap keeps the protected frames out of the pool if and only if it is
      not one of them. */
  lemma GiveKeepsIff(s: Pool, f: nat, s': Pool, capacity: nat, keep: set<nat>)
    requires PoolStep(s, Give(f), s', capacity) && 0 < f < capacity && s.free !! keep
    ensures s'.free !! keep <==> Clean(s, Give(f), keep)
  {
    assert f in s'.free;
  }

  ghost predicate PoolRun(states: seq<Pool>, ops: seq<PoolOp>, capacity: nat, keep: set<nat>) {
    && |states| == |ops| + 1
    && (forall k :: 0 <= k < |ops| ==> PoolStep(states[k], ops[k], states[k + 1], capacity))
    && (forall k :: 0 <= k < |ops| ==> Clean(states[k], ops[k], keep))
  }

  /** In every run from a pool free of protected frames, no allocation returns a protected
      frame or one that is already held. */
  lemma {:induction false} RunKeepsProtected(states: seq<Pool>, ops: seq<PoolOp>, capacity: nat, keep: set<nat>, n: nat)
    requires PoolRun(states, ops, capacity, keep) && n <= |ops|
    requires states[0].free !! keep && states[0].held == {}
    ensures states[n].free !! keep && states[n].held !! keep && states[n].free !! states[n].held
    ensures forall k :: 0 <= k < n && ops[k].Take? && ops[k].got.Some? ==>
              ops[k].got.value !in keep && ops[k].got.value !in states[k].held
  {
    if n > 0 {
      RunKeepsProtected(states, ops, capacity, keep, n - 1);
      assert PoolStep(states[n - 1], ops[n - 1], states[n], capacity);
      assert Clean(states[n - 1], ops[n - 1], keep);
    }
  }

  // ---------------------------------------------------------------------------
  // From boot on
  // ---------------------------------------------------------------------------

  datatype PoolCall = AskFrame | ReturnFrame(frame: nat)

  /** The frames that are free after boot: those of the usable regions, or all that are tracked, without
      the low megabyte and the protected ones. */
  ghost function BootFree(entries: Option<seq<MemmapEntry>>, r: BootRanges, capacity: nat): set<nat> {
    var tracked := if entries.Some? then RegionFrames(entries.value, {MEMMAP_USABLE}) else Frames(0, 64 * PMM_WORDS);
    tracked * Frames(1, capacity) - Protected(r)
  }

  /** What is free after boot, in bytes: a frame, of the bitmap's and the map's, no byte of which is one
      that the kernel must keep. */
  ghost predicate BootedInBytes(free: set<nat>, entries: Option<seq<MemmapEntry>>, r: BootRanges, capacity: nat) {
    forall f: nat ::
      f in free <==>
        && f < capacity && (if entries.Some? then InsideSome(entries.value, {0}, f) else f < 65536)
        && forall b: nat :: BootByte(r, b) ==> !ByteOf(b, f)
  }

  predicate NonEmpty(r: BootRanges) {
    r.kernelStart < r.kernelEnd && r.heapSize > 0 && (r.ramdisk.Some? ==> r.ramdisk.value.1 > 0)
  }

  lemma ProtectedIff(r: BootRanges, f: nat)
    requires EndsFit(r) && NonEmpty(r)
    ensures f in Protected(r) <==> exists b: nat :: BootByte(r, b) && ByteOf(b, f)
  {
    hide Protected, BootByte, EndsFit;
    if f in Protected(r) {
      var b := ProtectedIsTight(r, f);
      assert ByteOf(b, f);
    }
    forall b: nat | BootByte(r, b) && ByteOf(b, f) ensures f in Protected(r) {
      ProtectedCoversBytes(r, b);
      assert b / PAGE_SIZE == f;
    }
  }

  lemma BootInBytes(entries: Option<seq<MemmapEntry>>, r: BootRanges, capacity: nat)
    requires EndsFit(r) && NonEmpty(r) && (entries.Some? ==> AlignedBases(entries.value, {0}))
    ensures BootedInBytes(BootFree(entries, r, capacity), entries, r, capacity)
  {
    hide Protected, BootByte, RegionFrames, InsideSome, EndsFit, NonEmpty;
    forall f: nat
      ensures f in BootFree(entries, r, capacity) <==>
              && f < capacity && (if entries.Some? then InsideSome(entries.value, {0}, f) else f < 65536)
              && forall b: nat :: BootByte(r, b) ==> !ByteOf(b, f)
    {
      ProtectedIff(r, f);
      if entries.Some? {
        RegionsInBytes(entries.value, {0}, f);
      }
      assert Within(f, 1, capacity) <==> 1 <= f < capacity;
      assert Within(f, 0, 65536) <==> f < 65536;
      ZeroKept(r);
      assert f == 0 ==> ByteOf(0, f);
    }
  }

  lemma ZeroKept(r: BootRanges)
    ensures BootByte(r, 0)
  {
  }

  /** Fills the pool at boot, from the memory map or for the whole tracked range, and takes the
      protected frames out of it. */
  method BootPool(pmm: BitmapAllocator, entries: Option<seq<MemmapEntry>>, r: BootRanges)
    requires pmm.FreeSet() == {}
    modifies pmm.bitmap
    ensures pmm.FreeSet() == BootFree(entries, r, pmm.Capacity()) && pmm.FreeSet() !! Protected(r)
    ensures entries.Some? ==> pmm.FreeSet() <= RegionFrames(entries.value, {MEMMAP_USABLE})
    ensures EndsFit(r) && NonEmpty(r) && (entries.Some? ==> AlignedBases(entries.value, {0})) ==>
            BootedInBytes(pmm.FreeSet(), entries, r, pmm.Capacity())
  {
    hide RegionFrames, Covering, BootedInBytes, EndsFit, NonEmpty, InBytes;
    if entries.Some? {
      InitFromMemoryMap(pmm, entries.value);
    } else {
      InitStatic(pmm);
    }
    ProtectBootMemory(pmm, r);
    if EndsFit(r) && NonEmpty(r) && (entries.Some? ==> AlignedBases(entries.value, {0})) {
      BootInBytes(entries, r, pmm.Capacity());
    }
  }

  /** The pool in the bitmap is the last state of a run. */
  ghost predicate AtEnd(pmm: BitmapAllocator, states: seq<Pool>, ops: seq<PoolOp>, keep: set<nat>, held: set<nat>)
    reads pmm, pmm.bitmap
  {
    && PoolRun(states, ops, pmm.Capacity(), keep) && states[0].free !! keep && states[0].held == {}
    && states[|ops|] == Pool(pmm.FreeSet(), held)
  }

  lemma RunMore(states: seq<Pool>, ops: seq<PoolOp>, capacity: nat, keep: set<nat>, op: PoolOp, s: Pool)
    requires PoolRun(states, ops, capacity, keep) && PoolStep(states[|ops|], op, s, capacity) &&
             Clean(states[|ops|], op, keep)
    ensures PoolRun(states + [s], ops + [op], capacity, keep)
  {
    var states', ops' := states + [s], ops + [op];
    forall k | 0 <= k < |ops'|
      ensures PoolStep(states'[k], ops'[k], states'[k + 1], capacity) && Clean(states'[k], ops'[k], keep)
    {
      if k < |ops| {
        assert PoolStep(states[k], ops[k], states[k + 1], capacity) && Clean(states[k], ops[k], keep);
      }
    }
  }

  /** The frames that a list of calls gives back. */
  function Returned(calls: seq<PoolCall>): set<nat> {
    set i | 0 <= i < |calls| && calls[i].ReturnFrame? :: calls[i].frame
  }

  /** The steps are the calls, one each. */
  predicate OpsOf(calls: seq<PoolCall>, ops: seq<PoolOp>) {
    && |ops| == |calls|
    && forall i :: 0 <= i < |calls| ==> if calls[i].AskFrame? then ops[i].Take? else ops[i] == Give(calls[i].frame)
  }

  /** The frames that a list of steps hands out, in order. */
  function HandedOut(ops: seq<PoolOp>): seq<nat> {
    if ops == [] then []
    else
      var op := ops[|ops| - 1];
      HandedOut(ops[..|ops| - 1]) + (if op.Take? && op.got.Some? then [op.got.value] else [])
  }

  lemma MoreServed(calls: seq<PoolCall>, i: nat, ops0: seq<PoolOp>, ops: seq<PoolOp>, op: PoolOp)
    requires i < |calls| && ops0 <= ops && OpsOf(calls[..i], ops[|ops0|..])
    requires if calls[i].AskFrame? then op.Take? else op == Give(calls[i].frame)
    ensures OpsOf(calls[..i + 1], (ops + [op])[|ops0|..])
    ensures HandedOut((ops + [op])[|ops0|..]) ==
            HandedOut(ops[|ops0|..]) + (if op.Take? && op.got.Some? then [op.got.value] else [])
  {
    var part := ops[|ops0|..];
    assert (ops + [op])[|ops0|..] == part + [op];
    assert (part + [op])[..|part|] == part;
    assert forall j :: 0 <= j < i ==> calls[..i + 1][j] == calls[..i][j];
  }

  /** Serves a list of calls, none of which gives back a protected frame. */
  method Serve(pmm: BitmapAllocator, calls: seq<PoolCall>, held: set<nat>, ghost keep: set<nat>,
               ghost states: seq<Pool>, ghost ops: seq<PoolOp>)
    returns (held': set<nat>, got: seq<nat>, ghost states': seq<Pool>, ghost ops': seq<PoolOp>)
    requires AtEnd(pmm, states, ops, keep, held) && Returned(calls) !! keep
    modifies pmm.bitmap
    ensures AtEnd(pmm, states', ops', keep, held') && states <= states' && ops <= ops'
    ensures OpsOf(calls, ops'[|ops|..]) && got == HandedOut(ops'[|ops|..])
    ensures forall f :: f in got ==> f !in keep
    ensures held' <= held + old(pmm.FreeSet()) + Returned(calls)
  {
    held', got, states', ops' := held, [], states, ops;
    ghost var known := held + pmm.FreeSet() + Returned(calls);
    for i := 0 to |calls|
      invariant AtEnd(pmm, states', ops', keep, held') && states <= states' && ops <= ops'
      invariant OpsOf(calls[..i], ops'[|ops|..]) && got == HandedOut(ops'[|ops|..])
      invariant forall f :: f in got ==> f !in keep
      invariant held' <= known && pmm.FreeSet() <= known
    {
      hide Returned, OpsOf, HandedOut;
      RunKeepsProtected(states', ops', pmm.Capacity(), keep, |ops'|);
      match calls[i] {
        case AskFrame =>
          var r := pmm.AllocateNextFrame();
          if r.Some? {
            got := got + [r.value];
            held' := held' + {r.value};
          }
          RunMore(states', ops', pmm.Capacity(), keep, Take(r), Pool(pmm.FreeSet(), held'));
          MoreServed(calls, i, ops, ops', Take(r));
          states', ops' := states' + [Pool(pmm.FreeSet(), held')], ops' + [Take(r)];
        case ReturnFrame(f) =>
          IsReturned(calls, i);
          pmm.FreeFrame(f);
          held' := held' - {f};
          RunMore(states', ops', pmm.Capacity(), keep, Give(f), Pool(pmm.FreeSet(), held'));
          MoreServed(calls, i, ops, ops', Give(f));
          states', ops' := states' + [Pool(pmm.FreeSet(), held')], ops' + [Give(f)];
      }
    }
    assert calls[..|calls|] == calls;
  }

  lemma IsReturned(calls: seq<PoolCall>, i: nat)
    requires i < |calls| && calls[i].ReturnFrame?
    ensures calls[i].frame in Returned(calls)
  {
  }

  lemma ServedParts(before: seq<PoolCall>, after: seq<PoolCall>, early: seq<PoolOp>, op: PoolOp, ops: seq<PoolOp>)
    requires OpsOf(before, early[0..]) && early + [op] <= ops && OpsOf(after, ops[|early| + 1..])
    ensures |ops| == |before| + 1 + |after| && ops[|before|] == op && ops[..|before|] == early == early[0..]
    ensures OpsOf(before, ops[..|before|]) && OpsOf(after, ops[|before| + 1..])
  {
    assert early[0..] == early;
    assert |early| == |before|;
    assert ops[|early|] == (early + [op])[|early|];
  }

  /** From boot on, before and after boot memory is reclaimed: whatever frames are asked for and
      returned, none handed out is a protected one, so it holds no byte of the low megabyte, the
      kernel, the heap or the ramdisk; nor is it one that is held. */
  method BootAndServe(pmm: BitmapAllocator, entries: seq<MemmapEntry>, r: BootRanges, before: seq<PoolCall>,
                      after: seq<PoolCall>)
    returns (got: seq<nat>, ghost states: seq<Pool>, ghost ops: seq<PoolOp>)
    requires pmm.FreeSet() == {} && EndsFit(r)
    requires var reclaimed := RegionFrames(entries, {MEMMAP_ACPI_RECLAIMABLE, MEMMAP_BOOTLOADER_RECLAIMABLE});
             reclaimed !! Protected(r) && reclaimed !! RegionFrames(entries, {MEMMAP_USABLE}) + Returned(before)
    requires Returned(before) + Returned(after) !! Protected(r)
    modifies pmm.bitmap
    ensures forall f :: f in got ==> f !in Protected(r)
    ensures forall f, b: nat :: f in got && BootByte(r, b) ==> b / PAGE_SIZE != f
    ensures PoolRun(states, ops, pmm.Capacity(), Protected(r))
    ensures states[0] == Pool(BootFree(Some(entries), r, pmm.Capacity()), {})
    ensures |ops| == |before| + 1 + |after| && ops[|before|] == Reclaim(entries)
    ensures OpsOf(before, ops[..|before|]) && OpsOf(after, ops[|before| + 1..])
    ensures got == HandedOut(ops[..|before|]) + HandedOut(ops[|before| + 1..])
    ensures forall k :: 0 <= k < |ops| && ops[k].Take? && ops[k].got.Some? ==> ops[k].got.value !in states[k].held
  {
    hide OpsOf, HandedOut, BootFree, Protected, RegionFrames, BootByte, EndsFit, BootedInBytes, Gained;
    ghost var keep := Protected(r);
    BootPool(pmm, Some(entries), r);
    states, ops := [Pool(pmm.FreeSet(), {})], [];
    var held, first, second: seq<nat>;
    held, first, states, ops := Serve(pmm, before, {}, keep, states, ops);
    ghost var early := ops;
    ReclaimBootMemory(pmm, entries);
    RunMore(states, ops, pmm.Capacity(), keep, Reclaim(entries), Pool(pmm.FreeSet(), held));
    states, ops := states + [Pool(pmm.FreeSet(), held)], ops + [Reclaim(entries)];
    held, second, states, ops := Serve(pmm, after, held, keep, states, ops);
    got := first + second;
    ServedParts(before, after, early, Reclaim(entries), ops);
    RunKeepsProtected(states, ops, pmm.Capacity(), keep, |ops|);
    forall f, b: nat | f in got && BootByte(r, b) ensures b / PAGE_SIZE != f {
      ProtectedCoversBytes(r, b);
    }
  }
}
