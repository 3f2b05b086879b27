/** The ELF64 loader: program headers, segments, and the image seen through the new table. */
module Elf {
  import opened Basics
  import opened PageTables
  import opened Worlds
  import opened Vmm
  import opened Spaces
  import opened LoadRuns
  import opened UserMemory

  // ---------------------------------------------------------------------------
  // Segments
  // ---------------------------------------------------------------------------

  datatype Segment = Segment(vaddr: nat, data: seq<Byte>, memsz: nat, flags: nat)

  function PageDown(a: nat): nat {
    a / PAGE_SIZE * PAGE_SIZE
  }

  /** The end of the page range, in 64-bit arithmetic that wraps. */
  function SegmentEnd(vaddr: nat, memsz: nat): nat {
    PageDown((vaddr + memsz + PAGE_SIZE - 1) % ADDRESS_LIMIT)
  }

  /** The page range covers the segment exactly when rounding its end up does not wrap. */
  lemma SegmentEndCovers(vaddr: nat, memsz: nat)
    requires vaddr + memsz < ADDRESS_LIMIT && vaddr >= USER_SPACE_BASE
    ensures vaddr + memsz <= SegmentEnd(vaddr, memsz) <==> vaddr + memsz <= ADDRESS_LIMIT - PAGE_SIZE
    ensures vaddr + memsz > ADDRESS_LIMIT - PAGE_SIZE ==> SegmentEnd(vaddr, memsz) == 0
  {
  }

  function Start(seg: Segment): nat {
    PageDown(seg.vaddr)
  }

  function PageCount(seg: Segment): nat {
    var end := SegmentEnd(seg.vaddr, seg.memsz);
    if end <= Start(seg) then 0 else (end - Start(seg)) / PAGE_SIZE
  }

  function SegFlags(flags: nat): MapFlags {
    MapFlags(flags / 2 % 2 == 1, true, flags % 2 == 0, false)
  }

  /** The byte a segment places at `addr`: file data, then zeros. */
  function SegByte(seg: Segment, addr: nat): Byte {
    if seg.vaddr <= addr < seg.vaddr + |seg.data| then seg.data[addr - seg.vaddr] else 0
  }

  function SegPage(seg: Segment, a: nat): (c: Contents)
    ensures c.Data? && |c.bytes| == PAGE_SIZE
    ensures forall k :: 0 <= k < PAGE_SIZE ==> c.bytes[k] == SegByte(seg, a + k)
  {
    Data(seq<Byte>(PAGE_SIZE, k requires 0 <= k => SegByte(seg, a + k)))
  }

  /** Page `k` of the segment is mapped with the segment's permissions to a frame that holds the
      segment's bytes. */
  ghost predicate PageLoaded(w: World, root: Frame, seg: Segment, k: nat) {
    var e := Walk(w.mem, root, PageOf(Start(seg), k));
    && e.Present? && e.flags == SegFlags(seg.flags)
    && Held(w, e.frame) && w.mem[e.frame] == SegPage(seg, Start(seg) + k * PAGE_SIZE)
  }

  /** `w'` extends `w`: older pages keep their leaves and contents. */
  ghost predicate Extends(w: World, w': World, root: Frame, added: set<nat>) {
    && Flat(w'.mem, root).Keys == Flat(w.mem, root).Keys + added
    && added !! Flat(w.mem, root).Keys
    && (forall v :: v in Flat(w.mem, root) ==> Flat(w'.mem, root)[v] == Flat(w.mem, root)[v])
    && (forall f :: Held(w, f) ==> Held(w', f) && w'.mem[f] == w.mem[f])
  }

  /** The first `n` pages of `seg` are loaded on top of `w0`. */
  ghost predicate Loading(w0: World, w: World, root: Frame, seg: Segment, n: nat) {
    && Extends(w0, w, root, RangePages(Start(seg), n))
    && (forall k :: 0 <= k < n ==> PageLoaded(w, root, seg, k))
  }

  lemma PageLoadedPersists(w: World, w': World, root: Frame, added: set<nat>, seg: Segment, k: nat)
    requires Extends(w, w', root, added) && PageLoaded(w, root, seg, k)
    ensures PageLoaded(w', root, seg, k)
  {
    hide Walk, Vpn;
    var v := PageOf(Start(seg), k);
    InFlat(w.mem, root, v);
    InFlat(w'.mem, root, v);
  }

  lemma ExtendsTrans(w: World, w1: World, w2: World, root: Frame, a: set<nat>, b: set<nat>)
    requires Extends(w, w1, root, a) && Extends(w1, w2, root, b)
    ensures Extends(w, w2, root, a + b)
  {
    hide Flat;
  }

  /** Mapping a zeroed frame and filling it with the page's bytes loads one more page. */
  lemma LoadPage(w: World, pages: Tags, w1: World, pages': Tags, kroot: Frame, root: Frame, seg: Segment, n: nat,
                 frame: Frame)
    requires var a := Start(seg) + n * PAGE_SIZE;
             FreshStep(w, pages, w1, pages', kroot, root, a, SegFlags(seg.flags), Mapped(frame))
    requires IsRoot(w1.tags, root)
    requires SameWalks(w1, w1.(mem := w1.mem[frame := SegPage(seg, Start(seg) + n * PAGE_SIZE)]))
    ensures var w' := w1.(mem := w1.mem[frame := SegPage(seg, Start(seg) + n * PAGE_SIZE)]);
            Extends(w, w', root, {PageOf(Start(seg), n)}) && PageLoaded(w', root, seg, n)
  {
    hide Walk, Kept, OthersUntouched, Accounted, LinksKept, OtherSlotsKept, PathSpace, Missing;
    var v := PageOf(Start(seg), n);
    var w' := w1.(mem := w1.mem[frame := SegPage(seg, Start(seg) + n * PAGE_SIZE)]);
    InFlat(w.mem, root, v);
    InFlat(w1.mem, root, v);
    assert Walk(w'.mem, root, v) == Walk(w1.mem, root, v);
    assert Flat(w'.mem, root) == Flat(w1.mem, root);
  }

  /** What holds when the first `n` pages of a segment are loaded: the pages are there with their bytes,
      and no other page changes in any address space. If the kernel's root leaves their slots empty, no
      other address space changes at all, and no frame is unaccounted for. */
  ghost predicate SegmentInv(w0: World, pages0: Tags, w: World, pages: Tags, kroot: Frame, root: Frame, seg: Segment,
                             n: nat) {
    && Loading(w0, w, root, seg, n) && Elsewhere(w0, w, RangePages(Start(seg), n)) && Standing(w0, w)
    && (PrivatePages(w0, kroot, RangePages(Start(seg), n)) && root != kroot ==>
          && Kept(w0, pages0, w, pages, {root}) && Separate(w0, w, root)
          && Accounted(w, pages) == Accounted(w0, pages0))
  }

  /** The first `n` pages of a segment are loaded, by a run of page loads. */
  ghost predicate SegmentRun(w0: World, pages0: Tags, run: seq<PageLoad>, w: World, pages: Tags, kroot: Frame,
                             cap: nat, root: Frame, seg: Segment, n: nat) {
    && LoadRun(w0, pages0, run, w, pages, kroot, cap, root) && AllMapped(run) && Vas(run) == SegPlan(seg, n)
    && Touched(run) == RangePages(Start(seg), n) && Loading(w0, w, root, seg, n)
  }

  /** The first `n` pages of a segment, in the order they are loaded. */
  function SegPlan(seg: Segment, n: nat): (plan: seq<nat>)
    ensures |plan| == n && forall k :: 0 <= k < n ==> plan[k] == Start(seg) + k * PAGE_SIZE
  {
    seq<nat>(n, (k: nat) => Start(seg) + k * PAGE_SIZE)
  }

  lemma SegmentStart(w: World, pages: Tags, kroot: Frame, cap: nat, root: Frame, seg: Segment)
    ensures SegmentRun(w, pages, [], w, pages, kroot, cap, root, seg, 0)
  {
    hide Flat, Walk;
    assert RangePages(Start(seg), 0) == {} && Touched([]) == {};
  }

  /** One more page is mapped and filled. */
  lemma SegmentStep(w0: World, pages0: Tags, run: seq<PageLoad>, w: World, pages: Tags, w1: World, pages': Tags,
                    kroot: Frame, cap: nat, root: Frame, seg: Segment, n: nat, frame: Frame)
    requires SegmentRun(w0, pages0, run, w, pages, kroot, cap, root, seg, n)
    requires FreshStep(w, pages, w1, pages', kroot, root, Start(seg) + n * PAGE_SIZE, SegFlags(seg.flags),
                       Mapped(frame))
    requires Sound(w1, kroot) && Owned(w1, kroot, pages', cap) && IsRoot(w1.tags, root)
    ensures var c := SegPage(seg, Start(seg) + n * PAGE_SIZE);
            SegmentRun(w0, pages0, run + [PageOfRun(seg, n, Mapped(frame), w1, pages')],
                       w1.(mem := w1.mem[frame := c]), pages', kroot, cap, root, seg, n + 1)
  {
    hide Sound, Owned, FreshStep, Loading, SegPage, Vpn, LoadRun, Touched;
    var l := PageOfRun(seg, n, Mapped(frame), w1, pages');
    StepLoaded(w0, w, pages, w1, pages', kroot, cap, root, seg, n, frame);
    LongerRun(w0, pages0, run, w, pages, kroot, cap, root, l);
    TouchedMore(run, l);
    VasJoin(run, [l]);
    assert Vas(run + [l]) == SegPlan(seg, n + 1);
    assert RangePages(Start(seg), n + 1) == RangePages(Start(seg), n) + {PageOf(Start(seg), n)};
  }

  /** Page `n` of a segment as a step of a run. */
  ghost function PageOfRun(seg: Segment, n: nat, r: FreshMap, w: World, pages: Tags): PageLoad {
    var a := Start(seg) + n * PAGE_SIZE;
    PageLoad(a, SegFlags(seg.flags), r, w, pages, SegPage(seg, a))
  }

  /** A page that cannot be mapped leaves the pages before it loaded. */
  lemma SegmentStops(w0: World, pages0: Tags, run: seq<PageLoad>, w: World, pages: Tags, w1: World, pages': Tags,
                     kroot: Frame, cap: nat, root: Frame, seg: Segment, n: nat, r: FreshMap)
    requires SegmentRun(w0, pages0, run, w, pages, kroot, cap, root, seg, n) && n < PageCount(seg) && !r.Mapped?
    requires FreshStep(w, pages, w1, pages', kroot, root, Start(seg) + n * PAGE_SIZE, SegFlags(seg.flags), r)
    requires Sound(w1, kroot) && Owned(w1, kroot, pages', cap) && IsRoot(w.tags, root)
    ensures var run' := run + [PageOfRun(seg, n, r, w1, pages')];
            && LoadRun(w0, pages0, run', w1, pages', kroot, cap, root) && !AllMapped(run')
            && Touched(run') <= SegPages(seg) && Loading(w0, w1, root, seg, n)
            && Follows(run', SegPlan(seg, PageCount(seg)))
  {
    hide Sound, Owned, FreshStep, Loading, SegPage, Vpn, LoadRun, Touched, PageCount;
    var l := PageOfRun(seg, n, r, w1, pages');
    LongerRun(w0, pages0, run, w, pages, kroot, cap, root, l);
    TouchedMore(run, l);
    assert (run + [l])[|run|] == l;
    VasJoin(run, [l]);
    assert Vas(run + [l]) <= SegPlan(seg, PageCount(seg));
    RangeWithin(Start(seg), n, PageCount(seg));
    StillLoading(w0, w, pages, w1, pages', kroot, root, seg, n, r);
  }

  lemma RangeWithin(a: nat, n: nat, count: nat)
    requires n < count
    ensures RangePages(a, n) + {PageOf(a, n)} <= RangePages(a, count)
  {
    hide PageOf;
  }

  lemma StillLoading(w0: World, w: World, pages: Tags, w1: World, pages': Tags, kroot: Frame, root: Frame, seg: Segment,
                     n: nat, r: FreshMap)
    requires Loading(w0, w, root, seg, n) && !r.Mapped? && IsRoot(w.tags, root)
    requires FreshStep(w, pages, w1, pages', kroot, root, Start(seg) + n * PAGE_SIZE, SegFlags(seg.flags), r)
    ensures Loading(w0, w1, root, seg, n)
  {
    hide Walk, Kept, OthersUntouched, Accounted, LinksKept, OtherSlotsKept, PathSpace, MapOutcome, Extends, PageLoaded,
         SegPage, Vpn;
    SameFlat(w, w1, root);
    UnchangedExtends(w, w1, pages, root);
    ExtendsTrans(w0, w, w1, root, RangePages(Start(seg), n), {});
    assert RangePages(Start(seg), n) + {} == RangePages(Start(seg), n);
    forall k | 0 <= k < n ensures PageLoaded(w1, root, seg, k) {
      PageLoadedPersists(w, w1, root, {}, seg, k);
    }
  }

  lemma SameFlat(w: World, w': World, root: Frame)
    requires SameWalks(w, w') && IsRoot(w.tags, root)
    ensures Flat(w'.mem, root) == Flat(w.mem, root)
  {
    hide Walk;
  }

  lemma UnchangedExtends(w: World, w': World, pages: Tags, root: Frame)
    requires Flat(w'.mem, root) == Flat(w.mem, root) && Persist(w, w', pages)
    ensures Extends(w, w', root, {})
  {
    hide Flat, LinksKept;
  }

  /** A loaded segment, from the run that loaded it. */
  lemma SegmentDone(w0: World, pages0: Tags, run: seq<PageLoad>, w: World, pages: Tags, kroot: Frame, cap: nat,
                    root: Frame, seg: Segment, n: nat)
    requires SegmentRun(w0, pages0, run, w, pages, kroot, cap, root, seg, n)
    requires Sound(w0, kroot) && Owned(w0, kroot, pages0, cap) && IsRoot(w0.tags, root)
    ensures SegmentInv(w0, pages0, w, pages, kroot, root, seg, n)
  {
    hide Sound, Owned, Loading, LoadRun, Touched, Elsewhere, Standing, Kept, Separate, Accounted, PrivatePages;
    RunCharged(w0, pages0, run, w, pages, kroot, cap, root);
  }

  lemma StepLoaded(w0: World, w: World, pages: Tags, w1: World, pages': Tags, kroot: Frame, cap: nat, root: Frame,
                   seg: Segment, n: nat, frame: Frame)
    requires Loading(w0, w, root, seg, n)
    requires FreshStep(w, pages, w1, pages', kroot, root, Start(seg) + n * PAGE_SIZE, SegFlags(seg.flags),
                       Mapped(frame))
    requires Sound(w1, kroot) && Owned(w1, kroot, pages', cap) && IsRoot(w1.tags, root)
    ensures Loading(w0, w1.(mem := w1.mem[frame := SegPage(seg, Start(seg) + n * PAGE_SIZE)]), root, seg, n + 1)
  {
    hide Sound, Owned, Walk, Extends, Kept, Flat, OthersUntouched, Accounted, Persist, Vpn, PageLoaded, OtherSlotsKept;
    var a := Start(seg) + n * PAGE_SIZE;
    var w' := w1.(mem := w1.mem[frame := SegPage(seg, a)]);
    WriteFrame(w1, kroot, pages', cap, frame, SegPage(seg, a));
    LoadPage(w, pages, w1, pages', kroot, root, seg, n, frame);
    ExtendsTrans(w0, w, w', root, RangePages(Start(seg), n), {PageOf(Start(seg), n)});
    assert RangePages(Start(seg), n + 1) == RangePages(Start(seg), n) + {PageOf(Start(seg), n)};
    forall k | 0 <= k < n + 1 ensures PageLoaded(w', root, seg, k) {
      if k < n {
        PageLoadedPersists(w, w', root, {PageOf(Start(seg), n)}, seg, k);
      }
    }
  }

  /** Copies the part of the file that falls on the page at `a` into a zeroed page. */
  function CopyInto(zero: Contents, seg: Segment, copyStart: nat, dataOffset: nat, count: nat): (c: Contents)
    requires zero.Data? && |zero.bytes| == PAGE_SIZE
    requires copyStart + count <= PAGE_SIZE && dataOffset + count <= |seg.data|
  {
    Data(zero.bytes[..copyStart] + seg.data[dataOffset..dataOffset + count] + zero.bytes[copyStart + count..])
  }

  /** The loader's copy arithmetic writes exactly the segment's bytes. */
  lemma CopyIsSegPage(seg: Segment, a: nat, copyStart: nat, dataOffset: nat, count: nat)
    requires a % PAGE_SIZE == 0 && a + PAGE_SIZE > seg.vaddr
    requires copyStart == (if a < seg.vaddr then seg.vaddr - a else 0)
    requires dataOffset == (if a <= seg.vaddr then 0 else if a - seg.vaddr <= |seg.data| then a - seg.vaddr
                            else |seg.data|)
    requires count == (if |seg.data| - dataOffset <= PAGE_SIZE - copyStart then |seg.data| - dataOffset
                       else PAGE_SIZE - copyStart)
    ensures CopyInto(ZeroPage(), seg, copyStart, dataOffset, count) == SegPage(seg, a)
    ensures dataOffset + count == if a + PAGE_SIZE - seg.vaddr <= |seg.data| then a + PAGE_SIZE - seg.vaddr
            else |seg.data|
  {
    hide CopyInto, SegPage;
    var c := CopyInto(ZeroPage(), seg, copyStart, dataOffset, count);
    CopiedByte(ZeroPage(), seg, copyStart, dataOffset, count, 0);
    forall k | 0 <= k < PAGE_SIZE ensures c.bytes[k] == SegPage(seg, a).bytes[k] {
      CopiedByte(ZeroPage(), seg, copyStart, dataOffset, count, k);
      assert SegPage(seg, a).bytes[k] == SegByte(seg, a + k);
    }
    assert c.bytes == SegPage(seg, a).bytes;
  }

  lemma CopiedByte(zero: Contents, seg: Segment, copyStart: nat, dataOffset: nat, count: nat, k: nat)
    requires zero.Data? && |zero.bytes| == PAGE_SIZE && k < PAGE_SIZE
    requires copyStart + count <= PAGE_SIZE && dataOffset + count <= |seg.data|
    ensures var c := CopyInto(zero, seg, copyStart, dataOffset, count);
            && c.Data? && |c.bytes| == PAGE_SIZE
            && c.bytes[k] == if copyStart <= k < copyStart + count then seg.data[dataOffset + (k - copyStart)]
                else zero.bytes[k]
  {
  }

  lemma PageRange(seg: Segment)
    ensures Start(seg) % PAGE_SIZE == 0 && Start(seg) <= seg.vaddr < Start(seg) + PAGE_SIZE
    ensures var end, n := SegmentEnd(seg.vaddr, seg.memsz), PageCount(seg);
            (n > 0 ==> end == Start(seg) + n * PAGE_SIZE) && (n == 0 ==> end <= Start(seg))
  {
    RoundedDown(seg.vaddr);
    RoundedDown((seg.vaddr + seg.memsz + PAGE_SIZE - 1) % ADDRESS_LIMIT);
  }

  /** The pages of a segment are those that hold a byte of it; one that ends within a page of 2^64, where
      rounding up wraps, has none. */
  lemma PagesHoldSegment(seg: Segment, p: nat)
    requires seg.memsz > 0 && seg.vaddr + seg.memsz < ADDRESS_LIMIT && seg.vaddr >= USER_SPACE_BASE && p % 4096 == 0
    ensures Start(seg) <= p < Start(seg) + PageCount(seg) * 4096 <==>
            && seg.vaddr + seg.memsz <= ADDRESS_LIMIT - 4096
            && p < seg.vaddr + seg.memsz && seg.vaddr < p + 4096
  {
    PageRange(seg);
    SegmentEndCovers(seg.vaddr, seg.memsz);
    var q, u := p / 4096, Start(seg) / 4096;
    assert p == q * 4096 && Start(seg) == u * 4096;
    if seg.vaddr + seg.memsz <= ADDRESS_LIMIT - 4096 {
      var end := SegmentEnd(seg.vaddr, seg.memsz);
      RoundedDown(seg.vaddr + seg.memsz + 4095);
      assert end == (seg.vaddr + seg.memsz + 4095) / 4096 * 4096;
      assert end < seg.vaddr + seg.memsz + 4096;
    }
  }

  lemma RoundedDown(a: nat)
    ensures PageDown(a) % PAGE_SIZE == 0 && PageDown(a) <= a < PageDown(a) + PAGE_SIZE
  {
  }

  /** Maps the pages of one segment and copies its file bytes into them. Whether or not all of them can
      be mapped, the first `n` are loaded and the run of page loads accounts for every frame. */
  method MapAndCopySegment(m: Machine, root: Frame, seg: Segment)
    returns (ok: bool, ghost n: nat, ghost run: seq<PageLoad>)
    requires SpacesValid(m) && IsRoot(m.tags, root)
    modifies m`mem, m`tags, m`pages, m.pmm.bitmap
    ensures SpacesValid(m) && IsRoot(m.tags, root)
    ensures n <= PageCount(seg) && (ok <==> n == PageCount(seg)) && Loading(old(m.W()), m.W(), root, seg, n)
    ensures LoadRun(old(m.W()), old(m.pages), run, m.W(), m.pages, m.kroot, m.pmm.Capacity(), root)
    ensures Charged(old(m.W()), old(m.pages), run, m.W(), m.pages, m.kroot, root)
    ensures Touched(run) <= SegPages(seg) && (ok <==> AllMapped(run)) && (ok ==> Touched(run) == SegPages(seg))
    ensures Follows(run, SegPlan(seg, PageCount(seg))) && (ok ==> Vas(run) == SegPlan(seg, PageCount(seg)))
    ensures ok <==> Fits(old(m.W()), root, SegPlan(seg, PageCount(seg)))
    ensures ok ==> SegmentInv(old(m.W()), old(m.pages), m.W(), m.pages, m.kroot, root, seg, PageCount(seg))
  {
    hide Sound, Owned, SegmentRun, SegmentInv, FreshStep, Vpn, SegPage, PageCount, Start, SegmentEnd, ZeroPage, Loading,
         LoadRun, Charged, Touched, SegPlan, Follows, Fits;
    ghost var w0, pages0, cap := m.W(), m.pages, m.pmm.Capacity();
    SegmentStart(w0, pages0, m.kroot, cap, root, seg);
    PageRange(seg);
    var endVaddr := SegmentEnd(seg.vaddr, seg.memsz);
    var current := Start(seg);
    var dataOffset := 0;
    n, run := 0, [];
    while current < endVaddr
      invariant current == Start(seg) + n * PAGE_SIZE && n <= PageCount(seg)
      invariant PageCount(seg) > 0 ==> endVaddr == Start(seg) + PageCount(seg) * PAGE_SIZE
      invariant PageCount(seg) == 0 ==> endVaddr <= Start(seg)
      invariant dataOffset == (if current <= seg.vaddr then 0 else if current - seg.vaddr <= |seg.data|
                               then current - seg.vaddr else |seg.data|)
      invariant SpacesValid(m) && IsRoot(m.tags, root)
      invariant SegmentRun(w0, pages0, run, m.W(), m.pages, m.kroot, cap, root, seg, n)
    {
      ghost var w, pages := m.W(), m.pages;
      var r := MapZeroed(m, root, current, SegFlags(seg.flags));
      StepRoot(w, pages, m.W(), m.pages, m.kroot, root, current, SegFlags(seg.flags), r);
      if !r.Mapped? {
        SegmentStops(w0, pages0, run, w, pages, m.W(), m.pages, m.kroot, cap, root, seg, n, r);
        ok, run := false, run + [PageOfRun(seg, n, r, m.W(), m.pages)];
        RunCharged(w0, pages0, run, m.W(), m.pages, m.kroot, cap, root);
        RunSucceedsIff(w0, pages0, run, m.W(), m.pages, m.kroot, cap, root, SegPlan(seg, PageCount(seg)));
        return;
      }
      var frame := r.frame;
      var copyStart := if current < seg.vaddr then seg.vaddr - current else 0;
      var left := |seg.data| - dataOffset;
      var count := if left <= PAGE_SIZE - copyStart then left else PAGE_SIZE - copyStart;
      CopyIsSegPage(seg, current, copyStart, dataOffset, count);
      SegmentStep(w0, pages0, run, w, pages, m.W(), m.pages, m.kroot, cap, root, seg, n, frame);
      run := run + [PageOfRun(seg, n, r, m.W(), m.pages)];
      WriteFrame(m.W(), m.kroot, m.pages, cap, frame, SegPage(seg, current));
      ghost var mapped := m.mem;
      if count > 0 {
        m.mem := m.mem[frame := CopyInto(m.mem[frame], seg, copyStart, dataOffset, count)];
      } else {
        NothingToCopy(seg, copyStart, dataOffset);
      }
      assert m.mem == mapped[frame := SegPage(seg, current)];
      dataOffset := dataOffset + count;
      current := current + PAGE_SIZE;
      n := n + 1;
    }
    ok := true;
    SegmentDone(w0, pages0, run, m.W(), m.pages, m.kroot, cap, root, seg, n);
    SegmentRunParts(w0, pages0, run, m.W(), m.pages, m.kroot, cap, root, seg, n);
    RunCharged(w0, pages0, run, m.W(), m.pages, m.kroot, cap, root);
    RunSucceedsIff(w0, pages0, run, m.W(), m.pages, m.kroot, cap, root, SegPlan(seg, n));
  }

  lemma SegmentRunParts(w0: World, pages0: Tags, run: seq<PageLoad>, w: World, pages: Tags, kroot: Frame, cap: nat,
                        root: Frame, seg: Segment, n: nat)
    requires SegmentRun(w0, pages0, run, w, pages, kroot, cap, root, seg, n)
    ensures LoadRun(w0, pages0, run, w, pages, kroot, cap, root) && AllMapped(run) && Loading(w0, w, root, seg, n)
    ensures n == PageCount(seg) ==> Touched(run) == SegPages(seg)
    ensures Vas(run) == SegPlan(seg, n) && Follows(run, SegPlan(seg, n))
  {
  }

  lemma NothingToCopy(seg: Segment, copyStart: nat, dataOffset: nat)
    requires copyStart <= PAGE_SIZE && dataOffset <= |seg.data|
    ensures CopyInto(ZeroPage(), seg, copyStart, dataOffset, 0) == ZeroPage()
  {
    assert ZeroPage().bytes[..copyStart] + [] + ZeroPage().bytes[copyStart..] == ZeroPage().bytes;
  }

  lemma StepRoot(w: World, pages: Tags, w': World, pages': Tags, kroot: Frame, root: Frame, va: nat, flags: MapFlags,
                 r: FreshMap)
    requires FreshStep(w, pages, w', pages', kroot, root, va, flags, r) && IsRoot(w.tags, root)
    ensures IsRoot(w'.tags, root)
    ensures r.Mapped? ==> r.frame in w'.mem && w'.mem[r.frame] == ZeroPage() && r.frame !in w'.tags
  {
  }

  // ---------------------------------------------------------------------------
  // Reading the image back
  // ---------------------------------------------------------------------------

  /** The byte user code sees at `addr`. */
  function ReadByte(mem: Memory, root: Frame, addr: nat): Option<Byte> {
    match Translate(mem, root, addr)
    case None => None
    case Some(phys) =>
      var f := phys / PAGE_SIZE;
      if f in mem && mem[f].Data? && |mem[f].bytes| == PAGE_SIZE then Some(mem[f].bytes[phys % PAGE_SIZE]) else None
  }

  /** Through the new table every byte of a loaded segment reads its file byte, or zero past
      the file's part, with the permissions of the program header. */
  lemma LoadedSegmentReads(w: World, root: Frame, seg: Segment, addr: nat)
    requires seg.vaddr <= addr < seg.vaddr + seg.memsz && |seg.data| <= seg.memsz
    requires seg.vaddr + seg.memsz <= ADDRESS_LIMIT - PAGE_SIZE
    requires forall k :: 0 <= k < PageCount(seg) ==> PageLoaded(w, root, seg, k)
    ensures ReadByte(w.mem, root, addr) == Some(if addr - seg.vaddr < |seg.data| then seg.data[addr - seg.vaddr] else 0)
    ensures var e := Walk(w.mem, root, Vpn(addr));
            e.Present? && e.flags == MapFlags(seg.flags / 2 % 2 == 1, true, seg.flags % 2 == 0, false)
  {
    hide Walk, Vpn, PageCount, Start;
    var k, off := PageNumber(seg, addr);
    var a := Start(seg) + k * PAGE_SIZE;
    assert PageLoaded(w, root, seg, k);
    SamePageSameVpn(addr, a);
    var e := Walk(w.mem, root, Vpn(addr));
    PageParts(e.frame, off);
  }

  lemma PageParts(frame: Frame, off: nat)
    requires off < PAGE_SIZE
    ensures (frame * PAGE_SIZE + off) / PAGE_SIZE == frame && (frame * PAGE_SIZE + off) % PAGE_SIZE == off
  {
  }

  /** The page of a segment that holds the byte at `addr`, and the place in it. */
  lemma PageNumber(seg: Segment, addr: nat) returns (k: nat, off: nat)
    requires seg.vaddr <= addr < seg.vaddr + seg.memsz <= ADDRESS_LIMIT - PAGE_SIZE
    ensures k < PageCount(seg) && off < PAGE_SIZE && off == addr % PAGE_SIZE && addr == Start(seg) + k * PAGE_SIZE + off
    ensures addr / PAGE_SIZE == (Start(seg) + k * PAGE_SIZE) / PAGE_SIZE
  {
    PageRange(seg);
    k, off := (addr - Start(seg)) / PAGE_SIZE, addr % PAGE_SIZE;
    var top := seg.vaddr + seg.memsz + PAGE_SIZE - 1;
    assert top % ADDRESS_LIMIT == top;
    RoundedDown(top);
  }

  // ---------------------------------------------------------------------------
  // The whole image
  // ---------------------------------------------------------------------------

  ghost function SegPages(seg: Segment): set<nat> {
    RangePages(Start(seg), PageCount(seg))
  }

  ghost function AllPages(segs: seq<Segment>): set<nat> {
    if segs == [] then {} else AllPages(segs[..|segs| - 1]) + SegPages(segs[|segs| - 1])
  }

  lemma {:induction false} SegInAll(segs: seq<Segment>, j: nat)
    requires j < |segs|
    ensures SegPages(segs[j]) <= AllPages(segs)
  {
    if j < |segs| - 1 {
      SegInAll(segs[..|segs| - 1], j);
    }
  }

  ghost predicate SegLoaded(w: World, root: Frame, seg: Segment) {
    forall k :: 0 <= k < PageCount(seg) ==> PageLoaded(w, root, seg, k)
  }

  /** All segments are loaded on pages of their own, and every other page is as before. */
  ghost predicate ImageLoaded(w0: World, w: World, root: Frame, segs: seq<Segment>) {
    && Extends(w0, w, root, AllPages(segs))
    && (forall j :: 0 <= j < |segs| ==> SegLoaded(w, root, segs[j]))
    && (forall i, j :: 0 <= i < j < |segs| ==> SegPages(segs[i]) !! SegPages(segs[j]))
  }

  /** Through the table of a loaded image every byte of every segment reads its file byte or zero,
      with the header's permissions; a page of no segment translates as before. */
  lemma ImageReads(w0: World, w: World, root: Frame, segs: seq<Segment>, j: nat, addr: nat, v: nat)
    requires ImageLoaded(w0, w, root, segs) && j < |segs| && |segs[j].data| <= segs[j].memsz
    requires segs[j].vaddr <= addr < segs[j].vaddr + segs[j].memsz <= ADDRESS_LIMIT - PAGE_SIZE
    ensures ReadByte(w.mem, root, addr) == Some(if addr - segs[j].vaddr < |segs[j].data|
                                                then segs[j].data[addr - segs[j].vaddr] else 0)
    ensures var e := Walk(w.mem, root, Vpn(addr));
            e.Present? && e.flags == MapFlags(segs[j].flags / 2 % 2 == 1, true, segs[j].flags % 2 == 0, false)
    ensures v < VPN_LIMIT && v !in AllPages(segs) ==> Walk(w.mem, root, v).Present? == Walk(w0.mem, root, v).Present?
    ensures v < VPN_LIMIT && Walk(w0.mem, root, v).Present? ==> Walk(w.mem, root, v) == Walk(w0.mem, root, v)
  {
    hide ReadByte, Walk, Vpn, PageLoaded, AllPages, SegPages, PageCount;
    assert SegLoaded(w, root, segs[j]);
    LoadedSegmentReads(w, root, segs[j], addr);
    var flat0, flat := Flat(w0.mem, root), Flat(w.mem, root);
    if v < VPN_LIMIT {
      assert v in flat0 <==> Walk(w0.mem, root, v).Present?;
      assert v in flat <==> Walk(w.mem, root, v).Present?;
      assert v in flat.Keys <==> v in flat0.Keys || v in AllPages(segs);
    }
  }

  /** All segments are loaded, on pages of their own, and no other page changes in any address space. If
      the kernel's root leaves their slots empty, no other address space changes at all, and no frame
      is unaccounted for. */
  ghost predicate ImageInv(w0: World, pages0: Tags, w: World, pages: Tags, kroot: Frame, root: Frame,
                           segs: seq<Segment>) {
    && ImageLoaded(w0, w, root, segs) && Elsewhere(w0, w, AllPages(segs)) && Standing(w0, w)
    && (PrivatePages(w0, kroot, AllPages(segs)) && root != kroot ==>
          && Kept(w0, pages0, w, pages, {root}) && Separate(w0, w, root)
          && Accounted(w, pages) == Accounted(w0, pages0))
  }

  /** The segments are loaded, by a run of page loads. */
  ghost predicate ImageRun(w0: World, pages0: Tags, run: seq<PageLoad>, w: World, pages: Tags, kroot: Frame, cap: nat,
                           root: Frame, segs: seq<Segment>) {
    && LoadRun(w0, pages0, run, w, pages, kroot, cap, root) && AllMapped(run) && Vas(run) == ImagePlan(segs)
    && Touched(run) == AllPages(segs) && ImageLoaded(w0, w, root, segs)
  }

  /** The pages of all segments, in the order they are loaded. */
  function ImagePlan(segs: seq<Segment>): seq<nat> {
    if segs == [] then []
    else
      var seg := segs[|segs| - 1];
      ImagePlan(segs[..|segs| - 1]) + SegPlan(seg, PageCount(seg))
  }

  /** The plan of an image starts its pages at page boundaries, and they are the pages of its segments. */
  lemma {:induction false} PlanOfImage(segs: seq<Segment>)
    ensures PageAligned(ImagePlan(segs)) && PlanPages(ImagePlan(segs)) == AllPages(segs)
  {
    if segs != [] {
      hide Vpn, PageCount;
      var rest, seg := segs[..|segs| - 1], segs[|segs| - 1];
      var a, b := ImagePlan(rest), SegPlan(seg, PageCount(seg));
      PlanOfImage(rest);
      assert forall k :: 0 <= k < |b| ==> (a + b)[|a| + k] == b[k];
      PlanSplitPages(a, b);
      PlanOfSegment(seg);
    }
  }

  lemma PlanSplitPages(a: seq<nat>, b: seq<nat>)
    ensures PlanPages(a + b) == PlanPages(a) + PlanPages(b)
  {
    hide Vpn;
    assert forall k :: 0 <= k < |a| ==> (a + b)[k] == a[k];
    assert forall k :: 0 <= k < |b| ==> (a + b)[|a| + k] == b[k];
  }

  lemma PlanOfSegment(seg: Segment)
    ensures PlanPages(SegPlan(seg, PageCount(seg))) == SegPages(seg)
    ensures PageAligned(SegPlan(seg, PageCount(seg)))
  {
    hide Vpn, PageCount;
    var plan := SegPlan(seg, PageCount(seg));
    assert forall k :: 0 <= k < |plan| ==> Vpn(plan[k]) == PageOf(Start(seg), k);
    assert forall v :: v in SegPages(seg) <==> exists k :: 0 <= k < |plan| && Vpn(plan[k]) == v;
  }

  lemma ImagePlanMore(segs: seq<Segment>, seg: Segment)
    ensures ImagePlan(segs + [seg]) == ImagePlan(segs) + SegPlan(seg, PageCount(seg))
  {
    assert (segs + [seg])[..|segs|] == segs;
  }

  lemma ImageStart(w: World, pages: Tags, kroot: Frame, cap: nat, root: Frame)
    ensures ImageRun(w, pages, [], w, pages, kroot, cap, root, [])
  {
    hide Flat, Walk;
    assert Touched([]) == {};
  }

  lemma ImageStep(w0: World, pages0: Tags, run: seq<PageLoad>, w: World, pages: Tags, more: seq<PageLoad>, w': World,
                  pages': Tags, kroot: Frame, cap: nat, root: Frame, segs: seq<Segment>, seg: Segment)
    requires ImageRun(w0, pages0, run, w, pages, kroot, cap, root, segs)
    requires SegmentRun(w, pages, more, w', pages', kroot, cap, root, seg, PageCount(seg))
    ensures ImageRun(w0, pages0, run + more, w', pages', kroot, cap, root, segs + [seg])
  {
    hide Loading, ImageLoaded, RangePages, PageCount, LoadRun, Touched, SegPlan;
    ImagePlanMore(segs, seg);
    VasJoin(run, more);
    var all := segs + [seg];
    assert all[..|all| - 1] == segs && all[|all| - 1] == seg;
    ImageGrows(w0, w, w', root, segs, seg);
    JoinedRuns(w0, pages0, run, w, pages, more, w', pages', kroot, cap, root);
    TouchedJoin(run, more);
  }

  lemma ImageDone(w0: World, pages0: Tags, run: seq<PageLoad>, w: World, pages: Tags, kroot: Frame, cap: nat,
                  root: Frame, segs: seq<Segment>)
    requires ImageRun(w0, pages0, run, w, pages, kroot, cap, root, segs)
    requires Sound(w0, kroot) && Owned(w0, kroot, pages0, cap) && IsRoot(w0.tags, root)
    ensures ImageInv(w0, pages0, w, pages, kroot, root, segs)
  {
    hide Sound, Owned, ImageLoaded, LoadRun, Touched, Elsewhere, Standing, Kept, Separate, Accounted, PrivatePages;
    RunCharged(w0, pages0, run, w, pages, kroot, cap, root);
  }

  lemma ImageGrows(w0: World, w: World, w': World, root: Frame, segs: seq<Segment>, seg: Segment)
    requires ImageLoaded(w0, w, root, segs)
    requires Loading(w, w', root, seg, PageCount(seg))
    ensures ImageLoaded(w0, w', root, segs + [seg])
  {
    hide PageLoaded, Extends, RangePages, PageCount;
    var all := segs + [seg];
    assert all[..|all| - 1] == segs;
    ExtendsTrans(w0, w, w', root, AllPages(segs), SegPages(seg));
    forall j | 0 <= j < |all| ensures SegLoaded(w', root, all[j]) {
      if j < |segs| {
        assert SegLoaded(w, root, segs[j]);
        SegPersists(w, w', root, SegPages(seg), segs[j]);
      }
    }
    ExtendsFresh(w0, w, w', root, AllPages(segs), SegPages(seg));
    StillApart(segs, seg);
  }

  lemma StillApart(segs: seq<Segment>, seg: Segment)
    requires forall i, j :: 0 <= i < j < |segs| ==> SegPages(segs[i]) !! SegPages(segs[j])
    requires AllPages(segs) !! SegPages(seg)
    ensures var all := segs + [seg]; forall i, j :: 0 <= i < j < |all| ==> SegPages(all[i]) !! SegPages(all[j])
  {
    hide SegPages, AllPages;
    forall i | 0 <= i < |segs| ensures SegPages(segs[i]) !! SegPages(seg) {
      SegInAll(segs, i);
    }
  }

  lemma ExtendsFresh(w: World, w1: World, w2: World, root: Frame, a: set<nat>, b: set<nat>)
    requires Extends(w, w1, root, a) && Extends(w1, w2, root, b)
    ensures a !! b
  {
    hide Flat;
  }

  lemma SegPersists(w: World, w': World, root: Frame, added: set<nat>, seg: Segment)
    requires Extends(w, w', root, added) && SegLoaded(w, root, seg)
    ensures SegLoaded(w', root, seg)
  {
    hide PageLoaded, Extends;
    forall k | 0 <= k < PageCount(seg) ensures PageLoaded(w', root, seg, k) {
      PageLoadedPersists(w, w', root, added, seg, k);
    }
  }

  // ---------------------------------------------------------------------------
  // Headers
  // ---------------------------------------------------------------------------

  const PT_LOAD: nat := 1
  const PH_SIZE: nat := 56

  datatype ElfError =
    | TooSmall | BadMagic | BadClass | BadByteOrder | BadType | BadMachine | NoHeaders | TruncatedHeaders
    | HeaderOutOfBounds | FileSizeExceedsMemory | SegmentOutOfBounds | AddressOverflow | BelowUserSpace
    | SegmentNotMapped | EntryBelowUserSpace

  /** `Panicked` is a slice whose bounds are out of order after wrap-around. */
  datatype ElfResult = Loaded(entry: nat) | Failed(error: ElfError) | Panicked

  function Machine64(arch: Arch): nat {
    if arch.X86_64? then 62 else 183
  }

  function Stride(elf: seq<Byte>): nat
    requires |elf| >= 64
  {
    if Le(elf, 54, 2) < PH_SIZE then PH_SIZE else Le(elf, 54, 2)
  }

  function HeaderOffset(elf: seq<Byte>, i: nat): nat
    requires |elf| >= 64
  {
    hide Le, Stride;
    Le(elf, 32, 8) + i * Stride(elf)
  }

  /** The segment a program header describes; one outside the file has no data. */
  function SegmentAt(elf: seq<Byte>, h: nat): Segment
    requires h + PH_SIZE <= |elf|
  {
    var off, filesz := Le(elf, h + 8, 8), Le(elf, h + 32, 8);
    Segment(Le(elf, h + 16, 8), if off + filesz <= |elf| then elf[off..off + filesz] else [], Le(elf, h + 40, 8),
            Le(elf, h + 4, 4))
  }

  /** A program header of the gABI, field by field. */
  datatype ProgramHeader = ProgramHeader(kind: nat, flags: nat, offset: nat, vaddr: nat, paddr: nat, filesz: nat,
                                         memsz: nat, align: nat)

  predicate HeaderFits(p: ProgramHeader) {
    && p.kind < 0x1_0000_0000 && p.flags < 0x1_0000_0000 && p.offset < ADDRESS_LIMIT && p.vaddr < ADDRESS_LIMIT
    && p.paddr < ADDRESS_LIMIT && p.filesz < ADDRESS_LIMIT && p.memsz < ADDRESS_LIMIT && p.align < ADDRESS_LIMIT
  }

  function HeaderBytes(p: ProgramHeader): (b: seq<Byte>)
    ensures |b| == PH_SIZE
  {
    ToLe(p.kind, 4) + ToLe(p.flags, 4) + ToLe(p.offset, 8) + ToLe(p.vaddr, 8) + ToLe(p.paddr, 8) +
    ToLe(p.filesz, 8) + ToLe(p.memsz, 8) + ToLe(p.align, 8)
  }

  lemma FieldAt(elf: seq<Byte>, h: nat, b: seq<Byte>, before: seq<Byte>, v: nat, n: nat, after: seq<Byte>)
    requires h + |b| <= |elf| && elf[h..h + |b|] == b == before + ToLe(v, n) + after && v < Pow256(n)
    ensures h + |before| + n <= |elf| && Le(elf, h + |before|, n) == v
  {
    hide Le, ToLe, Pow256;
    LeField(before, v, n, after);
    SubSlice(elf, h, |b|, |before|, |before| + n);
    LeMoved(elf, h + |before|, b, |before|, n);
  }

  /** The loader reads a program header as it was written. */
  lemma HeaderReads(elf: seq<Byte>, h: nat, p: ProgramHeader)
    requires HeaderFits(p) && h + PH_SIZE <= |elf| && elf[h..h + PH_SIZE] == HeaderBytes(p)
    requires p.offset + p.filesz <= |elf|
    ensures Le(elf, h, 4) == p.kind
    ensures SegmentAt(elf, h) == Segment(p.vaddr, elf[p.offset..p.offset + p.filesz], p.memsz, p.flags)
  {
    hide Le, HeaderBytes;
    HeaderFieldsRead(elf, h, p);
  }

  lemma HeaderFieldsRead(elf: seq<Byte>, h: nat, p: ProgramHeader)
    requires HeaderFits(p) && h + PH_SIZE <= |elf| && elf[h..h + PH_SIZE] == HeaderBytes(p)
    ensures Le(elf, h, 4) == p.kind && Le(elf, h + 4, 4) == p.flags && Le(elf, h + 8, 8) == p.offset &&
            Le(elf, h + 16, 8) == p.vaddr
    ensures Le(elf, h + 32, 8) == p.filesz && Le(elf, h + 40, 8) == p.memsz
  {
    hide Le, ToLe, Pow256;
    Pow256Values();
    var b := HeaderBytes(p);
    var k, f, o, v := ToLe(p.kind, 4), ToLe(p.flags, 4), ToLe(p.offset, 8), ToLe(p.vaddr, 8);
    var a, s, m, g := ToLe(p.paddr, 8), ToLe(p.filesz, 8), ToLe(p.memsz, 8), ToLe(p.align, 8);
    assert b == [] + k + (f + o + v + a + s + m + g);
    FieldAt(elf, h, b, [], p.kind, 4, f + o + v + a + s + m + g);
    assert b == k + f + (o + v + a + s + m + g);
    FieldAt(elf, h, b, k, p.flags, 4, o + v + a + s + m + g);
    assert b == (k + f) + o + (v + a + s + m + g);
    FieldAt(elf, h, b, k + f, p.offset, 8, v + a + s + m + g);
    assert b == (k + f + o) + v + (a + s + m + g);
    FieldAt(elf, h, b, k + f + o, p.vaddr, 8, a + s + m + g);
    assert b == (k + f + o + v + a) + s + (m + g);
    FieldAt(elf, h, b, k + f + o + v + a, p.filesz, 8, m + g);
    assert b == (k + f + o + v + a + s) + m + g;
    FieldAt(elf, h, b, k + f + o + v + a + s, p.memsz, 8, g);
  }

  /** The loadable segments among the first `n` program headers. */
  function LoadList(elf: seq<Byte>, n: nat): seq<Segment>
    requires |elf| >= 64
  {
    if n == 0 then []
    else
      LoadList(elf, n - 1)
      + var h := HeaderOffset(elf, n - 1);
        if h + PH_SIZE <= |elf| && Le(elf, h, 4) == PT_LOAD then [SegmentAt(elf, h)] else []
  }

  function HeaderCheck(elf: seq<Byte>, arch: Arch): Option<ElfError> {
    if |elf| < 64 then Some(TooSmall)
    else if elf[0] != 0x7F || elf[1] != 'E' as int || elf[2] != 'L' as int || elf[3] != 'F' as int then Some(BadMagic)
    else if elf[4] != 2 then Some(BadClass)
    else if elf[5] != 1 then Some(BadByteOrder)
    else if Le(elf, 16, 2) != 2 && Le(elf, 16, 2) != 3 then Some(BadType)
    else if Le(elf, 18, 2) != Machine64(arch) then Some(BadMachine)
    else if Le(elf, 32, 8) == 0 || Le(elf, 56, 2) == 0 then Some(NoHeaders)
    else if |elf| < (Le(elf, 32, 8) + Le(elf, 56, 2) * Stride(elf)) % ADDRESS_LIMIT then Some(TruncatedHeaders)
    else None
  }

  lemma FieldBounds(elf: seq<Byte>)
    requires |elf| >= 64
    ensures Le(elf, 32, 8) < ADDRESS_LIMIT && Stride(elf) < 0x1_0000 && Le(elf, 56, 2) < 0x1_0000
  {
    LeBound(elf, 32, 8);
    LeBound(elf, 54, 2);
    LeBound(elf, 56, 2);
    Pow256Values();
  }

  /** What the loader has checked of a segment before mapping it. */
  predicate Admitted(seg: Segment) {
    |seg.data| <= seg.memsz && seg.vaddr + seg.memsz < ADDRESS_LIMIT && USER_SPACE_BASE <= seg.vaddr
  }

  predicate AllAdmitted(segs: seq<Segment>) {
    forall j :: 0 <= j < |segs| ==> Admitted(segs[j])
  }

  /** What the loader answers to program header `i` before mapping anything, if it stops there. */
  function Refusal(elf: seq<Byte>, i: nat): Option<ElfResult>
    requires |elf| >= 64
  {
    hide Stride;
    var h := HeaderOffset(elf, i) % ADDRESS_LIMIT;
    if (h + PH_SIZE) % ADDRESS_LIMIT > |elf| then Some(Failed(HeaderOutOfBounds))
    else if h + PH_SIZE >= ADDRESS_LIMIT then Some(Panicked)
    else if Le(elf, h, 4) != PT_LOAD then None
    else
      var offset, vaddr, filesz, memsz := Le(elf, h + 8, 8), Le(elf, h + 16, 8), Le(elf, h + 32, 8), Le(elf, h + 40, 8);
      if filesz > memsz then Some(Failed(FileSizeExceedsMemory))
      else if (offset + filesz) % ADDRESS_LIMIT > |elf| then Some(Failed(SegmentOutOfBounds))
      else if vaddr + memsz >= ADDRESS_LIMIT then Some(Failed(AddressOverflow))
      else if vaddr < USER_SPACE_BASE then Some(Failed(BelowUserSpace))
      else if offset + filesz >= ADDRESS_LIMIT then Some(Panicked)
      else None
  }

  /** A loadable header is let through exactly when its segment is admissible and its bytes lie in
      the file. A sum that wraps can pass the bounds check, and then the slice panics. */
  lemma RefusalIff(elf: seq<Byte>, i: nat, p: ProgramHeader)
    requires 64 <= |elf| < ADDRESS_LIMIT && HeaderFits(p) && p.kind == PT_LOAD
    requires var h := HeaderOffset(elf, i); h + PH_SIZE <= |elf| && elf[h..h + PH_SIZE] == HeaderBytes(p)
    ensures Refusal(elf, i).None? <==>
            p.filesz <= p.memsz && p.offset + p.filesz <= |elf| && p.vaddr + p.memsz < ADDRESS_LIMIT &&
                p.vaddr >= USER_SPACE_BASE
    ensures Refusal(elf, i) == Some(Panicked) <==>
            && p.filesz <= p.memsz && p.vaddr + p.memsz < ADDRESS_LIMIT && p.vaddr >= USER_SPACE_BASE
            && p.offset + p.filesz >= ADDRESS_LIMIT && p.offset + p.filesz - ADDRESS_LIMIT <= |elf|
    ensures Refusal(elf, i) == Some(Failed(FileSizeExceedsMemory)) <==> p.filesz > p.memsz
    ensures Refusal(elf, i) == Some(Failed(SegmentOutOfBounds)) <==>
            p.filesz <= p.memsz && (p.offset + p.filesz) % ADDRESS_LIMIT > |elf|
    ensures Refusal(elf, i) == Some(Failed(AddressOverflow)) <==>
            && p.filesz <= p.memsz && (p.offset + p.filesz) % ADDRESS_LIMIT <= |elf|
            && p.vaddr + p.memsz >= ADDRESS_LIMIT
    ensures Refusal(elf, i) == Some(Failed(BelowUserSpace)) <==>
            && p.filesz <= p.memsz && (p.offset + p.filesz) % ADDRESS_LIMIT <= |elf|
            && p.vaddr + p.memsz < ADDRESS_LIMIT && p.vaddr < USER_SPACE_BASE
  {
    hide Le, HeaderOffset, HeaderBytes;
    HeaderFieldsRead(elf, HeaderOffset(elf, i), p);
  }

  /** Program header `i`: skipped unless loadable, else checked, mapped and copied. */
  method LoadHeader(m: Machine, elf: seq<Byte>, root: Frame, i: nat, ghost w0: World, ghost pages0: Tags,
                    ghost run: seq<PageLoad>)
    returns (r: Option<ElfResult>, ghost run': seq<PageLoad>)
    requires SpacesValid(m) && IsRoot(m.tags, root) && HeaderCheck(elf, m.arch).None? && |elf| < 0x8000_0000_0000_0000
    requires i < Le(elf, 56, 2) && AllAdmitted(LoadList(elf, i))
    requires i > 0 ==> Le(elf, 32, 8) <= |elf|
    requires ImageRun(w0, pages0, run, m.W(), m.pages, m.kroot, m.pmm.Capacity(), root, LoadList(elf, i))
    modifies m`mem, m`tags, m`pages, m.pmm.bitmap
    ensures SpacesValid(m) && IsRoot(m.tags, root)
    ensures r.Some? ==> !r.value.Loaded?
    ensures Refusal(elf, i).Some? ==> r == Refusal(elf, i) && m.W() == old(m.W()) && m.pages == old(m.pages)
    ensures Refusal(elf, i).None? && r.Some? ==> r.value == Failed(SegmentNotMapped)
    ensures r.None? ==> Le(elf, 32, 8) <= |elf| && AllAdmitted(LoadList(elf, i + 1))
    ensures r.None? ==>
            ImageRun(w0, pages0, run', m.W(), m.pages, m.kroot, m.pmm.Capacity(), root, LoadList(elf, i + 1))
    ensures LoadRun(w0, pages0, run', m.W(), m.pages, m.kroot, m.pmm.Capacity(), root)
    ensures Touched(run') <= AllPages(LoadList(elf, i + 1))
    ensures Refusal(elf, i).Some? ==> run' == run
    ensures Refusal(elf, i).None? && r.Some? ==> !AllMapped(run') && Follows(run', ImagePlan(LoadList(elf, i + 1)))
  {
    hide Sound, Owned, SegmentInv, Le, HeaderOffset, HeaderCheck, Refusal, LoadList, SegmentAt, AllAdmitted, AllPages,
         LoadRun, Touched, Loading, ImageLoaded, Charged, PageCount, RangePages, SegPlan, Follows, Fits, ImagePlan;
    HeaderChecked(elf, m.arch);
    MorePages(elf, i, i + 1);
    run' := run;
    var refusal := Refusal(elf, i);
    if refusal.Some? {
      RefusalKind(elf, i);
      return refusal, run;
    }
    LetThrough(elf, m.arch, i);
    var start := HeaderOffset(elf, i);
    if Le(elf, start, 4) != PT_LOAD {
      return None, run;
    }
    var offset, filesz := Le(elf, start + 8, 8), Le(elf, start + 32, 8);
    var seg := Segment(Le(elf, start + 16, 8), elf[offset..offset + filesz], Le(elf, start + 40, 8),
                       Le(elf, start + 4, 4));
    ghost var w, pages, cap := m.W(), m.pages, m.pmm.Capacity();
    var ok;
    ghost var n, more;
    ok, n, more := MapAndCopySegment(m, root, seg);
    run' := run + more;
    JoinedRuns(w0, pages0, run, w, pages, more, m.W(), m.pages, m.kroot, cap, root);
    TouchedJoin(run, more);
    AllPagesMore(LoadList(elf, i), seg);
    ImagePlanMore(LoadList(elf, i), seg);
    FollowsJoin(run, ImagePlan(LoadList(elf, i)), more, SegPlan(seg, PageCount(seg)));
    if !ok {
      return Some(Failed(SegmentNotMapped)), run';
    }
    ImageStep(w0, pages0, run, w, pages, more, m.W(), m.pages, m.kroot, cap, root, LoadList(elf, i), seg);
    r := None;
  }

  lemma AllPagesMore(segs: seq<Segment>, seg: Segment)
    ensures AllPages(segs + [seg]) == AllPages(segs) + SegPages(seg)
  {
    assert (segs + [seg])[..|segs|] == segs;
  }

  /** The loadable segments of a file; one too short for a header has none. */
  function FileSegments(elf: seq<Byte>): seq<Segment> {
    if |elf| < 64 then [] else LoadList(elf, Le(elf, 56, 2))
  }

  lemma {:induction false} MorePages(elf: seq<Byte>, i: nat, n: nat)
    requires |elf| >= 64 && i <= n
    ensures AllPages(LoadList(elf, i)) <= AllPages(LoadList(elf, n))
    decreases n
  {
    hide Le, HeaderOffset, SegmentAt, AllPages, SegPages;
    if i < n {
      MorePages(elf, i, n - 1);
      var h := HeaderOffset(elf, n - 1);
      if h + PH_SIZE <= |elf| && Le(elf, h, 4) == PT_LOAD {
        AllPagesMore(LoadList(elf, n - 1), SegmentAt(elf, h));
      } else {
        assert LoadList(elf, n) == LoadList(elf, n - 1);
      }
    }
  }

  lemma RefusalKind(elf: seq<Byte>, i: nat)
    requires |elf| >= 64
    ensures Refusal(elf, i).Some? ==> !Refusal(elf, i).value.Loaded?
  {
    hide Le, HeaderOffset;
  }

  lemma NoWrap(elf: seq<Byte>, i: nat)
    requires 64 <= |elf| < 0x8000_0000_0000_0000 && i < Le(elf, 56, 2) && (i > 0 ==> Le(elf, 32, 8) <= |elf|)
    ensures Le(elf, 32, 8) <= HeaderOffset(elf, i) < ADDRESS_LIMIT
  {
    hide Le, Stride;
    FieldBounds(elf);
    HeaderSpan(elf, i);
    if i == 0 {
      assert 0 * Stride(elf) == 0;
    }
  }

  /** A header let through is inside the file and so is its segment, which is admissible; it
      extends the list of loadable segments. */
  lemma LetThrough(elf: seq<Byte>, arch: Arch, i: nat)
    requires HeaderCheck(elf, arch).None? && 64 <= |elf| < 0x8000_0000_0000_0000 && i < Le(elf, 56, 2) &&
             Refusal(elf, i).None?
    requires i > 0 ==> Le(elf, 32, 8) <= |elf|
    ensures Le(elf, 32, 8) <= HeaderOffset(elf, i) && HeaderOffset(elf, i) + PH_SIZE <= |elf|
    ensures var h := HeaderOffset(elf, i);
            if Le(elf, h, 4) != PT_LOAD then
              LoadList(elf, i + 1) == LoadList(elf, i) &&
                  (AllAdmitted(LoadList(elf, i)) ==> AllAdmitted(LoadList(elf, i + 1)))
            else
              var offset, filesz := Le(elf, h + 8, 8), Le(elf, h + 32, 8);
              && offset + filesz <= |elf|
              && var seg := Segment(Le(elf, h + 16, 8), elf[offset..offset + filesz], Le(elf, h + 40, 8),
                                    Le(elf, h + 4, 4));
                 LoadList(elf, i + 1) == LoadList(elf, i) + [seg] &&
                     (AllAdmitted(LoadList(elf, i)) ==> AllAdmitted(LoadList(elf, i + 1)))
  {
    hide Le, HeaderCheck, Stride, HeaderOffset, Refusal, LoadList, SegmentAt, AllAdmitted;
    NoWrap(elf, i);
    NotRefused(elf, i);
    ListGrows(elf, i);
    var h := HeaderOffset(elf, i);
    if Le(elf, h, 4) == PT_LOAD {
      AdmittedMore(LoadList(elf, i), SegmentAt(elf, h));
    }
  }

  /** What the checks on header `i` have seen to when they stop nothing. */
  lemma NotRefused(elf: seq<Byte>, i: nat)
    requires 64 <= |elf| < 0x8000_0000_0000_0000 && Refusal(elf, i).None? && HeaderOffset(elf, i) < ADDRESS_LIMIT
    ensures HeaderOffset(elf, i) + PH_SIZE <= |elf|
    ensures var h := HeaderOffset(elf, i);
            Le(elf, h, 4) == PT_LOAD ==>
              var offset, filesz := Le(elf, h + 8, 8), Le(elf, h + 32, 8);
              && offset + filesz <= |elf| && Admitted(SegmentAt(elf, h))
              && SegmentAt(elf, h) == Segment(Le(elf, h + 16, 8), elf[offset..offset + filesz], Le(elf, h + 40, 8),
                                              Le(elf, h + 4, 4))
  {
    hide Le, Stride, HeaderOffset;
    assert HeaderOffset(elf, i) % ADDRESS_LIMIT == HeaderOffset(elf, i);
  }

  lemma ListGrows(elf: seq<Byte>, i: nat)
    requires |elf| >= 64 && HeaderOffset(elf, i) + PH_SIZE <= |elf|
    ensures var h := HeaderOffset(elf, i);
            LoadList(elf, i + 1) ==
            if Le(elf, h, 4) == PT_LOAD then LoadList(elf, i) + [SegmentAt(elf, h)] else LoadList(elf, i)
  {
    hide Le, Stride, HeaderOffset, SegmentAt;
  }

  lemma AdmittedMore(segs: seq<Segment>, seg: Segment)
    requires Admitted(seg)
    ensures AllAdmitted(segs) ==> AllAdmitted(segs + [seg])
  {
  }

  lemma HeaderSpan(elf: seq<Byte>, i: nat)
    requires |elf| >= 64 && i < 0x1_0000 && Stride(elf) < 0x1_0000
    ensures i * Stride(elf) < 0x1_0000_0000
  {
    Times(i, Stride(elf));
  }

  lemma {:induction false} Times(a: nat, b: nat)
    requires b < 0x1_0000
    ensures a * b <= a * 0x1_0000
  {
    if a > 0 {
      Times(a - 1, b);
      assert a * b == (a - 1) * b + b;
    }
  }

  /** How many program headers from `i` on come before the first one that is refused. */
  function Passed(elf: seq<Byte>, i: nat): (n: nat)
    requires |elf| >= 64 && i <= Le(elf, 56, 2)
    ensures i <= n <= Le(elf, 56, 2) && (n < Le(elf, 56, 2) ==> Refusal(elf, n).Some?)
    ensures forall k :: i <= k < n ==> Refusal(elf, k).None?
    decreases Le(elf, 56, 2) - i
  {
    hide Refusal, Le;
    if i == Le(elf, 56, 2) || Refusal(elf, i).Some? then i else Passed(elf, i + 1)
  }

  /** The file itself is in order: its header, all its program headers and its entry point. */
  ghost predicate Accepted(elf: seq<Byte>, arch: Arch) {
    && HeaderCheck(elf, arch).None?
    && (forall i :: 0 <= i < Le(elf, 56, 2) ==> Refusal(elf, i).None?)
    && Le(elf, 24, 8) >= USER_SPACE_BASE
  }

  /** The segments that get loaded before the first refused header. */
  function PassedSegments(elf: seq<Byte>): seq<Segment>
    requires |elf| >= 64
  {
    LoadList(elf, Passed(elf, 0))
  }

  /** The answer to a file whose segments up to the first refused header could all be mapped, or not. */
  ghost predicate Answered(elf: seq<Byte>, arch: Arch, mapped: bool, r: ElfResult) {
    match HeaderCheck(elf, arch)
    case Some(error) => r == Failed(error)
    case None =>
      if |elf| < 64 then false
      else if !mapped then r == Failed(SegmentNotMapped)
      else if Passed(elf, 0) < Le(elf, 56, 2) then Some(r) == Refusal(elf, Passed(elf, 0))
      else r == if Le(elf, 24, 8) < USER_SPACE_BASE then Failed(EntryBelowUserSpace) else Loaded(Le(elf, 24, 8))
  }

  /** Loading succeeds exactly for accepted files whose pages could be mapped. */
  lemma LoadedIffAccepted(elf: seq<Byte>, arch: Arch, mapped: bool, r: ElfResult)
    requires Answered(elf, arch, mapped, r)
    ensures r.Loaded? <==> Accepted(elf, arch) && mapped
    ensures Accepted(elf, arch) ==> |elf| >= 64 && PassedSegments(elf) == FileSegments(elf)
    ensures r.Loaded? ==> r.entry == Le(elf, 24, 8)
  {
    hide Le, Refusal, LoadList;
    if HeaderCheck(elf, arch).None? && mapped && Passed(elf, 0) < Le(elf, 56, 2) {
      RefusalKind(elf, Passed(elf, 0));
    }
  }

  /** Loads every loadable segment of an ELF64 file into the address space of `root`. What the file says
      and what memory holds decide the answer; wherever the loader stops, the run of page loads
      accounts for every frame. */
  method LoadElfToProcess(m: Machine, elf: seq<Byte>, root: Frame) returns (r: ElfResult, ghost run: seq<PageLoad>)
    requires SpacesValid(m) && IsRoot(m.tags, root) && |elf| < 0x8000_0000_0000_0000
    modifies m`mem, m`tags, m`pages, m.pmm.bitmap
    ensures SpacesValid(m) && IsRoot(m.tags, root)
    ensures HeaderCheck(elf, m.arch).Some? ==> m.W() == old(m.W()) && m.pages == old(m.pages)
    ensures HeaderCheck(elf, m.arch).None? ==>
            && |elf| >= 64 && Follows(run, ImagePlan(PassedSegments(elf)))
            && (AllMapped(run) <==> Fits(old(m.W()), root, ImagePlan(PassedSegments(elf))))
    ensures Answered(elf, m.arch, AllMapped(run), r)
    ensures r.Loaded? <==> Accepted(elf, m.arch) && Fits(old(m.W()), root, ImagePlan(FileSegments(elf)))
    ensures r.Loaded? ==> AllMapped(run) && Vas(run) == ImagePlan(FileSegments(elf))
    ensures r.Loaded? ==> AllAdmitted(FileSegments(elf)) && r.entry == Le(elf, 24, 8)
    ensures LoadRun(old(m.W()), old(m.pages), run, m.W(), m.pages, m.kroot, m.pmm.Capacity(), root)
    ensures Charged(old(m.W()), old(m.pages), run, m.W(), m.pages, m.kroot, root)
    ensures Touched(run) <= AllPages(FileSegments(elf))
    ensures r.Loaded? ==>
            && ImageRun(old(m.W()), old(m.pages), run, m.W(), m.pages, m.kroot, m.pmm.Capacity(), root,
                        FileSegments(elf))
            && ImageInv(old(m.W()), old(m.pages), m.W(), m.pages, m.kroot, root, FileSegments(elf))
  {
    hide Sound, Owned, ImageInv, Le, LoadRun, Touched, Charged, ImageLoaded, AllPages, LoadList, AllAdmitted, Follows,
         Fits, ImagePlan, Refusal, Accepted, HeaderCheck;
    ghost var w0, pages0, cap := m.W(), m.pages, m.pmm.Capacity();
    run := [];
    StartOfRun(w0, pages0, m.kroot, cap, root);
    if HeaderCheck(elf, m.arch).Some? {
      LoadedIffAccepted(elf, m.arch, true, Failed(HeaderCheck(elf, m.arch).value));
      return Failed(HeaderCheck(elf, m.arch).value), [];
    }
    HeaderChecked(elf, m.arch);
    NoSegments(elf);
    ImageStart(w0, pages0, m.kroot, cap, root);
    for i := 0 to Le(elf, 56, 2)
      invariant SpacesValid(m) && IsRoot(m.tags, root) && i <= Passed(elf, 0)
      invariant AllAdmitted(LoadList(elf, i)) && (i > 0 ==> Le(elf, 32, 8) <= |elf|)
      invariant ImageRun(w0, pages0, run, m.W(), m.pages, m.kroot, cap, root, LoadList(elf, i))
    {
      var stop;
      MorePages(elf, i + 1, Le(elf, 56, 2));
      stop, run := LoadHeader(m, elf, root, i, w0, pages0, run);
      if stop.Some? {
        RunCharged(w0, pages0, run, m.W(), m.pages, m.kroot, cap, root);
        Stopped(w0, pages0, run, m.W(), m.pages, m.kroot, cap, root, elf, i);
        LoadedIffAccepted(elf, m.arch, AllMapped(run), stop.value);
        return stop.value, run;
      }
      StillPassed(elf, i);
    }
    RunCharged(w0, pages0, run, m.W(), m.pages, m.kroot, cap, root);
    Finished(w0, pages0, run, m.W(), m.pages, m.kroot, cap, root, elf);
    r := if Le(elf, 24, 8) < USER_SPACE_BASE then Failed(EntryBelowUserSpace) else Loaded(Le(elf, 24, 8));
    LoadedIffAccepted(elf, m.arch, true, r);
    ImageDone(w0, pages0, run, m.W(), m.pages, m.kroot, cap, root, FileSegments(elf));
  }

  lemma StillPassed(elf: seq<Byte>, i: nat)
    requires |elf| >= 64 && i < Le(elf, 56, 2) && i <= Passed(elf, 0) && Refusal(elf, i).None?
    ensures i + 1 <= Passed(elf, 0)
  {
    hide Le, Refusal;
  }

  lemma Finished(w0: World, pages0: Tags, run: seq<PageLoad>, w: World, pages: Tags, kroot: Frame, cap: nat,
                 root: Frame, elf: seq<Byte>)
    requires |elf| >= 64 && Sound(w0, kroot) && IsRoot(w0.tags, root) && Passed(elf, 0) == Le(elf, 56, 2)
    requires LoadRun(w0, pages0, run, w, pages, kroot, cap, root) && AllMapped(run)
    requires Vas(run) == ImagePlan(FileSegments(elf))
    ensures PassedSegments(elf) == FileSegments(elf) && Follows(run, ImagePlan(PassedSegments(elf)))
    ensures Fits(w0, root, ImagePlan(PassedSegments(elf)))
  {
    hide Le, LoadList, ImagePlan, Sound, LoadRun, Fits;
    RunSucceedsIff(w0, pages0, run, w, pages, kroot, cap, root, ImagePlan(FileSegments(elf)));
  }

  /** Where the loader stops before the last header: at a refused one, all pages before it mapped, or at
      a page that cannot be mapped. */
  lemma Stopped(w0: World, pages0: Tags, run: seq<PageLoad>, w: World, pages: Tags, kroot: Frame, cap: nat,
                root: Frame, elf: seq<Byte>, i: nat)
    requires |elf| >= 64 && Sound(w0, kroot) && IsRoot(w0.tags, root) && i <= Passed(elf, 0) && i < Le(elf, 56, 2)
    requires LoadRun(w0, pages0, run, w, pages, kroot, cap, root)
    requires Refusal(elf, i).Some? ==> AllMapped(run) && Vas(run) == ImagePlan(LoadList(elf, i))
    requires Refusal(elf, i).None? ==> !AllMapped(run) && Follows(run, ImagePlan(LoadList(elf, i + 1)))
    ensures Follows(run, ImagePlan(PassedSegments(elf))) && (Refusal(elf, i).Some? ==> Passed(elf, 0) == i)
    ensures AllMapped(run) <==> Fits(w0, root, ImagePlan(PassedSegments(elf)))
  {
    hide Le, LoadList, ImagePlan, Sound, LoadRun, Fits, Refusal;
    if Refusal(elf, i).None? {
      StillPassed(elf, i);
      PlanGrows(elf, i + 1, Passed(elf, 0));
      FollowsLonger(run, ImagePlan(LoadList(elf, i + 1)), ImagePlan(PassedSegments(elf)));
    }
    RunSucceedsIff(w0, pages0, run, w, pages, kroot, cap, root, ImagePlan(PassedSegments(elf)));
  }

  lemma {:induction false} PlanGrows(elf: seq<Byte>, i: nat, n: nat)
    requires |elf| >= 64 && i <= n
    ensures ImagePlan(LoadList(elf, i)) <= ImagePlan(LoadList(elf, n))
    decreases n
  {
    hide Le, HeaderOffset, SegmentAt, ImagePlan, SegPlan;
    if i < n {
      PlanGrows(elf, i, n - 1);
      var h := HeaderOffset(elf, n - 1);
      if h + PH_SIZE <= |elf| && Le(elf, h, 4) == PT_LOAD {
        ImagePlanMore(LoadList(elf, n - 1), SegmentAt(elf, h));
      } else {
        assert LoadList(elf, n) == LoadList(elf, n - 1);
      }
    }
  }

  lemma NoSegments(elf: seq<Byte>)
    requires |elf| >= 64
    ensures LoadList(elf, 0) == [] && AllAdmitted([])
  {
  }

  lemma StartOfRun(w: World, pages: Tags, kroot: Frame, cap: nat, root: Frame)
    requires Sound(w, kroot) && Owned(w, kroot, pages, cap)
    ensures LoadRun(w, pages, [], w, pages, kroot, cap, root) && Charged(w, pages, [], w, pages, kroot, root)
    ensures Touched([]) == {}
  {
    hide Sound, Owned, Charged;
    EmptyRun(w, pages, w, pages, kroot, cap, root);
  }

  // ---------------------------------------------------------------------------
  // The user stack
  // ---------------------------------------------------------------------------

  const USER_STACK_TOP: nat := USER_SPACE_BASE + 0x1000_0000
  const USER_STACK_PAGES: nat := 4

  /** The stack is a segment without file bytes, writable and not executable. */
  function StackSegment(): Segment {
    Segment(USER_STACK_TOP - USER_STACK_PAGES * PAGE_SIZE, [], USER_STACK_PAGES * PAGE_SIZE, 6)
  }

  /** Maps the stack of a new process. Whether or not all of it can be mapped, the run of page loads
      accounts for every frame. */
  method AllocateUserStack(m: Machine, root: Frame)
    returns (top: Option<nat>, ghost n: nat, ghost run: seq<PageLoad>)
    requires SpacesValid(m) && IsRoot(m.tags, root)
    modifies m`mem, m`tags, m`pages, m.pmm.bitmap
    ensures SpacesValid(m) && IsRoot(m.tags, root)
    ensures top.Some? ==> top.value == USER_STACK_TOP
    ensures n <= USER_STACK_PAGES && (top.Some? <==> n == USER_STACK_PAGES)
    ensures Loading(old(m.W()), m.W(), root, StackSegment(), n)
    ensures LoadRun(old(m.W()), old(m.pages), run, m.W(), m.pages, m.kroot, m.pmm.Capacity(), root)
    ensures Charged(old(m.W()), old(m.pages), run, m.W(), m.pages, m.kroot, root)
    ensures Touched(run) <= SegPages(StackSegment()) && (top.Some? <==> AllMapped(run))
    ensures Follows(run, SegPlan(StackSegment(), PageCount(StackSegment())))
    ensures top.Some? <==> Fits(old(m.W()), root, SegPlan(StackSegment(), PageCount(StackSegment())))
    ensures top.Some? ==>
            && SegmentRun(old(m.W()), old(m.pages), run, m.W(), m.pages, m.kroot, m.pmm.Capacity(), root,
                          StackSegment(), PageCount(StackSegment()))
            && SegmentInv(old(m.W()), old(m.pages), m.W(), m.pages, m.kroot, root, StackSegment(),
                          PageCount(StackSegment()))
  {
    hide Sound, Owned, SegmentInv, SegmentRun, FreshStep, Vpn, SegPage, ZeroPage, LoadRun, Charged, Touched, Loading,
         SegPlan, Follows, Fits;
    ghost var seg := StackSegment();
    ghost var w0, pages0, cap := m.W(), m.pages, m.pmm.Capacity();
    SegmentStart(w0, pages0, m.kroot, cap, root, seg);
    var flags := MapFlags(true, true, true, false);
    var bottom := USER_STACK_TOP - USER_STACK_PAGES * PAGE_SIZE;
    assert Start(seg) == bottom && PageCount(seg) == USER_STACK_PAGES;
    run := [];
    for i := 0 to USER_STACK_PAGES
      invariant SpacesValid(m) && IsRoot(m.tags, root)
      invariant SegmentRun(w0, pages0, run, m.W(), m.pages, m.kroot, cap, root, seg, i)
    {
      ghost var w, pages := m.W(), m.pages;
      var r := MapZeroed(m, root, bottom + i * PAGE_SIZE, flags);
      StepRoot(w, pages, m.W(), m.pages, m.kroot, root, bottom + i * PAGE_SIZE, flags, r);
      if !r.Mapped? {
        SegmentStops(w0, pages0, run, w, pages, m.W(), m.pages, m.kroot, cap, root, seg, i, r);
        top, n, run := None, i, run + [PageOfRun(seg, i, r, m.W(), m.pages)];
        RunCharged(w0, pages0, run, m.W(), m.pages, m.kroot, cap, root);
        RunSucceedsIff(w0, pages0, run, m.W(), m.pages, m.kroot, cap, root, SegPlan(seg, PageCount(seg)));
        return;
      }
      StackPageIsZero(bottom + i * PAGE_SIZE);
      SegmentStep(w0, pages0, run, w, pages, m.W(), m.pages, m.kroot, cap, root, seg, i, r.frame);
      run := run + [PageOfRun(seg, i, r, m.W(), m.pages)];
      assert m.mem[r.frame := SegPage(seg, bottom + i * PAGE_SIZE)] == m.mem;
    }
    top, n := Some(USER_STACK_TOP), USER_STACK_PAGES;
    SegmentDone(w0, pages0, run, m.W(), m.pages, m.kroot, cap, root, seg, n);
    SegmentRunParts(w0, pages0, run, m.W(), m.pages, m.kroot, cap, root, seg, n);
    RunCharged(w0, pages0, run, m.W(), m.pages, m.kroot, cap, root);
    RunSucceedsIff(w0, pages0, run, m.W(), m.pages, m.kroot, cap, root, SegPlan(seg, n));
  }

  lemma StackPageIsZero(a: nat)
    ensures SegPage(StackSegment(), a) == ZeroPage()
  {
    assert SegPage(StackSegment(), a).bytes == ZeroPage().bytes;
  }

  /** The segments of a process: those of its file, and the stack. */
  function ProcessSegments(elf: seq<Byte>): seq<Segment> {
    FileSegments(elf) + [StackSegment()]
  }

  /** The memory a new process starts with: the file's segments and, on pages of its own, the stack. */
  method BuildProcessImage(m: Machine, elf: seq<Byte>, root: Frame) returns (r: ElfResult, ghost run: seq<PageLoad>)
    requires SpacesValid(m) && IsRoot(m.tags, root) && |elf| < 0x8000_0000_0000_0000
    modifies m`mem, m`tags, m`pages, m.pmm.bitmap
    ensures SpacesValid(m) && IsRoot(m.tags, root)
    ensures LoadRun(old(m.W()), old(m.pages), run, m.W(), m.pages, m.kroot, m.pmm.Capacity(), root)
    ensures Charged(old(m.W()), old(m.pages), run, m.W(), m.pages, m.kroot, root)
    ensures Touched(run) <= AllPages(ProcessSegments(elf))
    ensures r.Loaded? <==> Accepted(elf, m.arch) && Fits(old(m.W()), root, ImagePlan(ProcessSegments(elf)))
    ensures r.Loaded? ==> r.entry == Le(elf, 24, 8)
    ensures r.Loaded? ==>
            && AllMapped(run) && Touched(run) == AllPages(ProcessSegments(elf))
            && ImageInv(old(m.W()), old(m.pages), m.W(), m.pages, m.kroot, root, ProcessSegments(elf))
  {
    hide Sound, Owned, ImageInv, SegmentInv, Le, HeaderCheck, LoadRun, Touched, Charged, ImageLoaded, AllPages,
         FileSegments, Loading, SegmentRun, Follows, Fits, Accepted, ImagePlan, SegPlan, Answered, StackSegment,
         PageCount;
    ghost var w0, pages0, cap := m.W(), m.pages, m.pmm.Capacity();
    r, run := LoadElfToProcess(m, elf, root);
    AllPagesMore(FileSegments(elf), StackSegment());
    ImagePlanMore(FileSegments(elf), StackSegment());
    if !r.Loaded? {
      if Accepted(elf, m.arch) {
        NotLoaded(w0, pages0, run, m.W(), m.pages, m.kroot, cap, root, elf, m.arch, r);
      }
      return;
    }
    ghost var w, pages := m.W(), m.pages;
    var top;
    ghost var n, more;
    top, n, more := AllocateUserStack(m, root);
    JoinedRuns(w0, pages0, run, w, pages, more, m.W(), m.pages, m.kroot, cap, root);
    TouchedJoin(run, more);
    RunCharged(w0, pages0, run + more, m.W(), m.pages, m.kroot, cap, root);
    FollowsJoin(run, ImagePlan(FileSegments(elf)), more, SegPlan(StackSegment(), PageCount(StackSegment())));
    RunSucceedsIff(w0, pages0, run + more, m.W(), m.pages, m.kroot, cap, root, ImagePlan(ProcessSegments(elf)));
    if top.None? {
      return Failed(SegmentNotMapped), run + more;
    }
    ImageStep(w0, pages0, run, w, pages, more, m.W(), m.pages, m.kroot, cap, root, FileSegments(elf), StackSegment());
    run := run + more;
    ImageDone(w0, pages0, run, m.W(), m.pages, m.kroot, cap, root, ProcessSegments(elf));
  }

  /** An accepted file that was not loaded met a page that could not be mapped, and so the whole process
      does not fit. */
  lemma NotLoaded(w0: World, pages0: Tags, run: seq<PageLoad>, w: World, pages: Tags, kroot: Frame, cap: nat,
                  root: Frame, elf: seq<Byte>, arch: Arch, r: ElfResult)
    requires Sound(w0, kroot) && IsRoot(w0.tags, root) && Accepted(elf, arch) && !r.Loaded?
    requires LoadRun(w0, pages0, run, w, pages, kroot, cap, root) && Answered(elf, arch, AllMapped(run), r)
    requires HeaderCheck(elf, arch).None? ==> |elf| >= 64 && Follows(run, ImagePlan(PassedSegments(elf)))
    ensures !Fits(w0, root, ImagePlan(ProcessSegments(elf)))
  {
    hide Le, LoadList, ImagePlan, Sound, LoadRun, Fits, Refusal, HeaderCheck;
    HeaderChecked(elf, arch);
    LoadedIffAccepted(elf, arch, AllMapped(run), r);
    assert PassedSegments(elf) == FileSegments(elf);
    ImagePlanMore(FileSegments(elf), StackSegment());
    FollowsLonger(run, ImagePlan(FileSegments(elf)), ImagePlan(ProcessSegments(elf)));
    RunSucceedsIff(w0, pages0, run, w, pages, kroot, cap, root, ImagePlan(ProcessSegments(elf)));
  }

  lemma HeaderChecked(elf: seq<Byte>, arch: Arch)
    requires HeaderCheck(elf, arch).None?
    ensures |elf| >= 64
  {
  }
}
