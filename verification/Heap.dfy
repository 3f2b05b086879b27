/** The kernel heap: a bump allocator with size-class free lists threaded through freed blocks. */
module Heap {
  import opened Basics

  const BUCKET_COUNT: nat := 9
  const MIN_BLOCK_SIZE: nat := 8
  const POINTER_LIMIT: nat := 0x1_0000_0000_0000_0000

  // ---------------------------------------------------------------------------
  // Bytes and pointers in memory
  // ---------------------------------------------------------------------------

  type Bytes = map<nat, Byte>

  function ByteAt(mem: Bytes, a: nat): Byte {
    if a in mem then mem[a] else 0
  }

  /** The little-endian number held in the `n` bytes from `a`. */
  function ReadLe(mem: Bytes, a: nat, n: nat): nat
    decreases n
  {
    if n == 0 then 0 else (ByteAt(mem, a) as int) + 256 * ReadLe(mem, a + 1, n - 1)
  }

  function WriteLe(mem: Bytes, a: nat, p: nat, n: nat): Bytes
    decreases n
  {
    if n == 0 then mem else WriteLe(mem[a := p % 256], a + 1, p / 256, n - 1)
  }

  lemma {:induction false} WriteFrame(mem: Bytes, a: nat, p: nat, n: nat, x: nat)
    requires !(a <= x < a + n)
    ensures ByteAt(WriteLe(mem, a, p, n), x) == ByteAt(mem, x)
    decreases n
  {
    if n > 0 {
      WriteFrame(mem[a := p % 256], a + 1, p / 256, n - 1, x);
    }
  }

  /** A pointer written to memory is the pointer read back. */
  lemma {:induction false} ReadWritten(mem: Bytes, a: nat, p: nat, n: nat)
    requires p < Pow256(n)
    ensures ReadLe(WriteLe(mem, a, p, n), a, n) == p
    decreases n
  {
    if n > 0 {
      ReadWritten(mem[a := p % 256], a + 1, p / 256, n - 1);
      WriteFrame(mem[a := p % 256], a + 1, p / 256, n - 1, a);
    }
  }

  lemma {:induction false} ReadFrame(mem: Bytes, mem': Bytes, a: nat, n: nat)
    requires forall x :: a <= x < a + n ==> ByteAt(mem', x) == ByteAt(mem, x)
    ensures ReadLe(mem', a, n) == ReadLe(mem, a, n)
    decreases n
  {
    if n > 0 {
      ReadFrame(mem, mem', a + 1, n - 1);
    }
  }

  function ReadPtr(mem: Bytes, a: nat): nat {
    ReadLe(mem, a, 8)
  }

  function WritePtr(mem: Bytes, a: nat, p: nat): Bytes {
    WriteLe(mem, a, p, 8)
  }

  function Zeroed(mem: Bytes, a: nat, n: nat): (mem': Bytes)
    ensures forall x: nat :: ByteAt(mem', x) == if a <= x < a + n then 0 else ByteAt(mem, x)
  {
    mem + map x | a <= x < a + n && InSpan(x, a, n) :: 0
  }

  lemma ZeroMore(mem: Bytes, a: nat, n: nat)
    ensures Zeroed(mem, a, n)[a + n := 0] == Zeroed(mem, a, n + 1)
  {
    assert InSpan(a + n, a, n + 1);
    assert forall x: nat :: InSpan(x, a, n + 1) <==> InSpan(x, a, n) || x == a + n;
  }

  predicate InSpan(x: nat, a: nat, n: nat) {
    a <= x < a + n
  }

  // ---------------------------------------------------------------------------
  // The allocator's steps
  // ---------------------------------------------------------------------------

  datatype Layout = Layout(size: nat, align: nat)

  /** Sizes are at least a pointer, so that a freed block can hold its link. */
  function BlockSize(layout: Layout): (r: nat)
    ensures layout.size <= r && 8 <= r && (r == layout.size || r == 8)
  {
    if layout.size < MIN_BLOCK_SIZE then MIN_BLOCK_SIZE else layout.size
  }

  /** The index of the first power of two from `cap` that holds `m`, with `cap` at index `i`. */
  function BucketFrom(m: nat, cap: nat, i: nat): (r: Option<nat>)
    requires i <= BUCKET_COUNT
    ensures r.Some? ==> i <= r.value < BUCKET_COUNT
    decreases BUCKET_COUNT - i
  {
    if i == BUCKET_COUNT then None else if m <= cap then Some(i) else BucketFrom(m, 2 * cap, i + 1)
  }

  function BucketOf(layout: Layout): Option<nat> {
    var size := BlockSize(layout);
    BucketFrom(if size < layout.align then layout.align else size, 8, 0)
  }

  /** The block size of bucket `k` counted from one of `cap` bytes. */
  function Doubled(cap: nat, k: nat): nat
    decreases k
  {
    if k == 0 then cap else Doubled(2 * cap, k - 1)
  }

  lemma {:induction false} BucketFromLeast(m: nat, cap: nat, i: nat)
    requires i < BUCKET_COUNT
    ensures var r := BucketFrom(m, cap, i);
            && (r.Some? ==> m <= Doubled(cap, r.value - i) && (r.value > i ==> Doubled(cap, r.value - i - 1) < m))
            && (r.None? ==> Doubled(cap, BUCKET_COUNT - 1 - i) < m)
    decreases BUCKET_COUNT - i
  {
    if m > cap && i + 1 < BUCKET_COUNT {
      BucketFromLeast(m, 2 * cap, i + 1);
    }
  }

  /** A block of `n` bytes holds the request: its size and its alignment. */
  predicate Holds(layout: Layout, n: nat) {
    layout.size <= n && layout.align <= n
  }

  /** Bucket `k` keeps blocks of 8 bytes doubled `k` times. */
  lemma BucketSizes()
    ensures Doubled(8, 0) == 8 && Doubled(8, 1) == 16 && Doubled(8, 2) == 32 && Doubled(8, 3) == 64
    ensures Doubled(8, 4) == 128 && Doubled(8, 5) == 256 && Doubled(8, 6) == 512 && Doubled(8, 7) == 1024
    ensures Doubled(8, 8) == 2048
  {
    assert Doubled(64, 0) == 64 && Doubled(64, 1) == 128 && Doubled(64, 2) == 256 && Doubled(64, 3) == 512;
    assert Doubled(512, 1) == 1024 && Doubled(512, 2) == 2048;
  }

  /** A request goes to the smallest bucket, of 8 to 2048 bytes, that holds its size and its
      alignment, and to none when even the largest does not. */
  lemma BucketIsLeast(layout: Layout)
    ensures var r := BucketOf(layout);
            && (r.Some? <==> Holds(layout, 2048))
            && (r.Some? ==> Holds(layout, Doubled(8, r.value)))
            && (r.Some? && r.value > 0 ==> !Holds(layout, Doubled(8, r.value - 1)))
  {
    var need := if BlockSize(layout) < layout.align then layout.align else BlockSize(layout);
    BucketFromLeast(need, 8, 0);
    LargestBucket();
    var r := BucketFrom(need, 8, 0);
    if r.Some? {
      DoubledGrows(8, r.value, BUCKET_COUNT - 1);
      if r.value > 0 {
        DoubledGrows(8, 0, r.value - 1);
      }
    }
  }

  lemma LargestBucket()
    ensures Doubled(8, BUCKET_COUNT - 1) == 2048
  {
    assert Doubled(512, 2) == 2048 && Doubled(128, 4) == 2048 && Doubled(32, 6) == 2048;
  }

  lemma {:induction false} DoubledGrows(cap: nat, k: nat, n: nat)
    requires k <= n
    ensures Doubled(cap, k) <= Doubled(cap, n)
    decreases n
  {
    if k > 0 {
      DoubledGrows(2 * cap, k - 1, n - 1);
    } else if n > 0 {
      DoubledGrows(2 * cap, 0, n - 1);
    }
  }

  datatype HeapState = HeapState(mem: Bytes, buckets: seq<nat>, heapEnd: nat, nextFree: nat, offset: nat)

  predicate MultipleOf(a: nat, align: nat, q: nat) {
    a == q * align
  }

  ghost predicate Aligned(a: nat, align: nat) {
    exists q :: MultipleOf(a, align, q)
  }

  function AlignUp(a: nat, align: nat): (r: nat)
    requires align > 0
    ensures a <= r < a + align && Aligned(r, align)
  {
    var q := (a + align - 1) / align;
    assert MultipleOf(q * align, align, q);
    q * align
  }

  /** The bump path reserves exactly the block size. */
  function BumpStep(h: HeapState, layout: Layout): (HeapState, nat)
    requires layout.align > 0
  {
    var start := AlignUp(h.nextFree, layout.align);
    var end := start + BlockSize(layout);
    if end <= h.heapEnd then (h.(nextFree := end), start + h.offset) else (h, 0)
  }

  /** Takes the head of the bucket's list, or bumps; the block is zeroed. */
  function AllocStep(h: HeapState, layout: Layout): (HeapState, nat)
    requires |h.buckets| == BUCKET_COUNT && layout.align > 0
  {
    var index := BucketOf(layout);
    var (h1, p) :=
      if index.Some? && h.buckets[index.value] != 0
      then (h.(buckets := h.buckets[index.value := ReadPtr(h.mem, h.buckets[index.value])]), h.buckets[index.value])
      else BumpStep(h, layout);
    if p != 0 then (h1.(mem := Zeroed(h1.mem, p, BlockSize(layout))), p) else (h1, p)
  }

  /** Pushes the block on its bucket's list; blocks too large for a bucket are dropped. */
  function DeallocStep(h: HeapState, p: nat, layout: Layout): HeapState
    requires |h.buckets| == BUCKET_COUNT
  {
    var index := BucketOf(layout);
    if p == 0 || index.None? then h
    else h.(mem := WritePtr(h.mem, p, h.buckets[index.value]), buckets := h.buckets[index.value := p])
  }

  function ClientWriteStep(h: HeapState, a: nat, b: Byte): HeapState {
    h.(mem := h.mem[a := b])
  }

  // ---------------------------------------------------------------------------
  // The invariant
  // ---------------------------------------------------------------------------

  /** A carved block: how many bytes it got, and the alignment it was carved with. */
  datatype Block = Block(size: nat, align: nat)

  /** What the allocator's clients hold and what it keeps: every block ever carved, the layouts of
      the live ones, the freed blocks on each bucket's list, and the block size of each bucket. */
  datatype Books = Books(carved: map<nat, Block>, live: map<nat, Layout>, lists: seq<seq<nat>>, classSize: seq<nat>)

  predicate Apart(carved: map<nat, Block>, p: nat, q: nat)
    requires p in carved && q in carved
  {
    p != q ==> p + carved[p].size <= q || q + carved[q].size <= p
  }

  /** The list is threaded through the blocks themselves, from the bucket head to null. */
  predicate Chain(mem: Bytes, head: nat, list: seq<nat>)
    decreases |list|
  {
    if list == [] then head == 0 else head == list[0] && head != 0 && Chain(mem, ReadPtr(mem, head), list[1..])
  }

  predicate LayoutOk(k: Books, p: nat)
    requires |k.classSize| == BUCKET_COUNT && p in k.live && p in k.carved
  {
    k.live[p].align > 0 && BlockSize(k.live[p]) == k.carved[p].size
    && (BucketOf(k.live[p]).Some? ==> k.carved[p].size == k.classSize[BucketOf(k.live[p]).value])
  }

  predicate ListedOk(k: Books, b: nat, i: nat)
    requires |k.lists| == BUCKET_COUNT && |k.classSize| == BUCKET_COUNT && b < BUCKET_COUNT && i < |k.lists[b]|
  {
    var p := k.lists[b][i];
    p in k.carved && p !in k.live && k.carved[p].size == k.classSize[b]
  }

  predicate ListedOnce(k: Books, b: nat, i: nat, c: nat, j: nat)
    requires |k.lists| == BUCKET_COUNT && b < BUCKET_COUNT && i < |k.lists[b]| && c < BUCKET_COUNT && j < |k.lists[c]|
  {
    b != c || i != j ==> k.lists[b][i] != k.lists[c][j]
  }

  ghost predicate Shape(h: HeapState, k: Books) {
    |h.buckets| == BUCKET_COUNT && |k.lists| == BUCKET_COUNT && |k.classSize| == BUCKET_COUNT
    && h.nextFree <= h.heapEnd && h.heapEnd + h.offset < POINTER_LIMIT && h.nextFree + h.offset > 0
  }

  ghost predicate CarvedOk(h: HeapState, carved: map<nat, Block>, start: nat, p: nat)
    requires p in carved
  {
    && carved[p].size >= MIN_BLOCK_SIZE && start + h.offset <= p && p + carved[p].size <= h.nextFree + h.offset &&
        p != 0
    && h.offset <= p && Aligned(p - h.offset, carved[p].align)
  }

  ghost predicate HeapInv(h: HeapState, k: Books, start: nat) {
    && Shape(h, k) && start <= h.nextFree
    && (forall p :: p in k.carved ==> CarvedOk(h, k.carved, start, p))
    && (forall p, q :: p in k.carved && q in k.carved ==> Apart(k.carved, p, q))
    && (forall p :: p in k.live ==> p in k.carved && LayoutOk(k, p))
    && (forall b, i :: 0 <= b < BUCKET_COUNT && 0 <= i < |k.lists[b]| ==> ListedOk(k, b, i))
    && (forall b, i, c, j :: 0 <= b < BUCKET_COUNT && 0 <= i < |k.lists[b]| && 0 <= c < BUCKET_COUNT &&
                              0 <= j < |k.lists[c]| ==>
          ListedOnce(k, b, i, c, j))
    && (forall b :: 0 <= b < BUCKET_COUNT ==> Chain(h.mem, h.buckets[b], k.lists[b]))
  }

  /** A list is intact as long as the link bytes of its blocks are. */
  lemma {:induction false} ChainFrame(mem: Bytes, mem': Bytes, head: nat, list: seq<nat>)
    requires Chain(mem, head, list)
    requires forall i, x :: 0 <= i < |list| && list[i] <= x < list[i] + 8 ==> ByteAt(mem', x) == ByteAt(mem, x)
    ensures Chain(mem', head, list)
    decreases |list|
  {
    if list != [] {
      forall x | head <= x < head + 8 ensures ByteAt(mem', x) == ByteAt(mem, x) {
        assert list[0] <= x < list[0] + 8;
      }
      ReadFrame(mem, mem', head, 8);
      forall i, x | 0 <= i < |list[1..]| && list[1..][i] <= x < list[1..][i] + 8
          ensures ByteAt(mem', x) == ByteAt(mem, x) {
        assert list[1..][i] == list[i + 1];
      }
      ChainFrame(mem, mem', ReadPtr(mem, head), list[1..]);
    }
  }

  /** Bytes change only inside block `p`. */
  ghost predicate ChangedWithin(mem: Bytes, mem': Bytes, carved: map<nat, Block>, p: nat)
    requires p in carved
  {
    forall x: nat :: !(p <= x < p + carved[p].size) ==> ByteAt(mem', x) == ByteAt(mem, x)
  }

  ghost predicate Unlisted(k: Books, p: nat) {
    forall b, i :: 0 <= b < |k.lists| && 0 <= i < |k.lists[b]| ==> k.lists[b][i] != p
  }

  /** Whatever is written inside an unlisted block, every free list stays intact. */
  lemma ListsIntact(h: HeapState, k: Books, start: nat, mem': Bytes, p: nat, b: nat)
    requires HeapInv(h, k, start) && p in k.carved && Unlisted(k, p) && ChangedWithin(h.mem, mem', k.carved, p) &&
             b < BUCKET_COUNT
    ensures Chain(mem', h.buckets[b], k.lists[b])
  {
    var list := k.lists[b];
    forall i, x | 0 <= i < |list| && list[i] <= x < list[i] + 8 ensures ByteAt(mem', x) == ByteAt(h.mem, x) {
      assert ListedOk(k, b, i);
      assert Apart(k.carved, p, list[i]);
      assert CarvedOk(h, k.carved, start, list[i]);
    }
    ChainFrame(h.mem, mem', h.buckets[b], list);
  }

  lemma LiveUnlisted(h: HeapState, k: Books, start: nat, p: nat)
    requires HeapInv(h, k, start) && p in k.live
    ensures Unlisted(k, p)
  {
    forall b, i | 0 <= b < |k.lists| && 0 <= i < |k.lists[b]| ensures k.lists[b][i] != p {
      assert ListedOk(k, b, i);
    }
  }

  /** Clients may write anything into the bytes of their live blocks. */
  lemma ClientWriteKeeps(h: HeapState, k: Books, start: nat, p: nat, a: nat, v: Byte)
    requires HeapInv(h, k, start) && p in k.live && p <= a < p + BlockSize(k.live[p])
    ensures HeapInv(ClientWriteStep(h, a, v), k, start)
  {
    var h' := ClientWriteStep(h, a, v);
    assert LayoutOk(k, p);
    LiveUnlisted(h, k, start, p);
    forall b | 0 <= b < BUCKET_COUNT ensures Chain(h'.mem, h'.buckets[b], k.lists[b]) {
      ListsIntact(h, k, start, h'.mem, p, b);
    }
    forall q | q in k.carved ensures CarvedOk(h', k.carved, start, q) {
      assert CarvedOk(h, k.carved, start, q);
    }
  }

  // ---------------------------------------------------------------------------
  // Allocation
  // ---------------------------------------------------------------------------

  /** Requests that fall in the same bucket agree on the block size. */
  predicate Agrees(k: Books, layout: Layout)
    requires |k.classSize| == BUCKET_COUNT
  {
    layout.align > 0 && (BucketOf(layout).Some? ==> BlockSize(layout) == k.classSize[BucketOf(layout).value])
  }

  /** The books after block `p` is taken from list `b`. */
  function PopBooks(k: Books, b: nat, p: nat, layout: Layout): Books
    requires b < |k.lists| && k.lists[b] != []
  {
    k.(lists := k.lists[b := k.lists[b][1..]], live := k.live[p := layout])
  }

  lemma PopKeeps(h: HeapState, k: Books, start: nat, layout: Layout)
    requires HeapInv(h, k, start) && Agrees(k, layout) && BucketOf(layout).Some? &&
             h.buckets[BucketOf(layout).value] != 0
    ensures var b := BucketOf(layout).value;
            var (h', p) := AllocStep(h, layout);
            && k.lists[b] != [] && p == k.lists[b][0] && p in k.carved && p !in k.live
            && k.carved[p].size == BlockSize(layout)
            && HeapInv(h', PopBooks(k, b, p, layout), start)
  {
    hide BucketFrom, Aligned, ListedOnce, Apart;
    var b := BucketOf(layout).value;
    var (h', p) := AllocStep(h, layout);
    assert Chain(h.mem, h.buckets[b], k.lists[b]);
    assert ListedOk(k, b, 0);
    var k' := PopBooks(k, b, p, layout);
    PoppedChains(h, k, start, layout, b, p);
    PoppedLists(h, k, start, layout, b, p);
    forall q | q in k'.carved ensures CarvedOk(h', k'.carved, start, q) {
      assert CarvedOk(h, k.carved, start, q);
    }
    forall q | q in k'.live ensures q in k'.carved && LayoutOk(k', q) {
      if q != p {
        assert LayoutOk(k, q);
      }
    }
  }

  lemma PoppedLists(h: HeapState, k: Books, start: nat, layout: Layout, b: nat, p: nat)
    requires HeapInv(h, k, start) && b < BUCKET_COUNT && k.lists[b] != [] && p == k.lists[b][0]
    ensures var k' := PopBooks(k, b, p, layout);
            && Unlisted(k', p)
            && (forall c, i :: 0 <= c < BUCKET_COUNT && 0 <= i < |k'.lists[c]| ==> ListedOk(k', c, i))
            && (forall c, i, d, j :: 0 <= c < BUCKET_COUNT && 0 <= i < |k'.lists[c]| && 0 <= d < BUCKET_COUNT &&
                                      0 <= j < |k'.lists[d]| ==>
                  ListedOnce(k', c, i, d, j))
  {
    var k' := PopBooks(k, b, p, layout);
    forall c, i | 0 <= c < BUCKET_COUNT && 0 <= i < |k'.lists[c]| ensures ListedOk(k', c, i) && k'.lists[c][i] != p {
      var i0 := if c == b then i + 1 else i;
      assert k'.lists[c][i] == k.lists[c][i0];
      assert ListedOk(k, c, i0) && ListedOnce(k, c, i0, b, 0);
    }
    forall c, i, d, j | 0 <= c < BUCKET_COUNT && 0 <= i < |k'.lists[c]| && 0 <= d < BUCKET_COUNT &&
        0 <= j < |k'.lists[d]|
      ensures ListedOnce(k', c, i, d, j)
    {
      assert ListedOnce(k, c, if c == b then i + 1 else i, d, if d == b then j + 1 else j);
    }
  }

  lemma PoppedChains(h: HeapState, k: Books, start: nat, layout: Layout, b: nat, p: nat)
    requires HeapInv(h, k, start) && b < BUCKET_COUNT && k.lists[b] != [] && p == k.lists[b][0]
    requires p in k.carved && k.carved[p].size == BlockSize(layout)
    ensures var mem' := Zeroed(h.mem, p, BlockSize(layout));
            forall c :: 0 <= c < BUCKET_COUNT ==>
              Chain(mem', if c == b then ReadPtr(h.mem, p) else h.buckets[c], if c == b then k.lists[b][1..]
                    else k.lists[c])
  {
    var mem' := Zeroed(h.mem, p, BlockSize(layout));
    forall c | 0 <= c < BUCKET_COUNT
      ensures Chain(mem', if c == b then ReadPtr(h.mem, p) else h.buckets[c], if c == b then k.lists[b][1..]
                    else k.lists[c])
    {
      var list := if c == b then k.lists[b][1..] else k.lists[c];
      var head := if c == b then ReadPtr(h.mem, p) else h.buckets[c];
      assert Chain(h.mem, h.buckets[c], k.lists[c]);
      assert ListedOk(k, b, 0);
      forall i, x | 0 <= i < |list| && list[i] <= x < list[i] + 8 ensures ByteAt(mem', x) == ByteAt(h.mem, x) {
        var i0 := if c == b then i + 1 else i;
        assert list[i] == k.lists[c][i0];
        assert ListedOk(k, c, i0) && ListedOnce(k, c, i0, b, 0);
        assert Apart(k.carved, p, list[i]);
        assert CarvedOk(h, k.carved, start, list[i]);
      }
      ChainFrame(h.mem, mem', head, list);
    }
  }

  /** The books after a block is carved at `p`. */
  function CarveBooks(k: Books, p: nat, layout: Layout): Books {
    k.(carved := k.carved[p := Block(BlockSize(layout), layout.align)], live := k.live[p := layout])
  }

  /** A bumped block lies beyond every block carved before. */
  lemma BumpKeeps(h: HeapState, k: Books, start: nat, layout: Layout)
    requires HeapInv(h, k, start) && Agrees(k, layout)
    requires BucketOf(layout).Some? ==> h.buckets[BucketOf(layout).value] == 0
    ensures var (h', p) := AllocStep(h, layout);
            && (p == 0 ==> h' == h)
            && (p != 0 ==> p !in k.carved && HeapInv(h', CarveBooks(k, p, layout), start))
  {
    hide BucketFrom, Chain, Aligned;
    var (h', p) := AllocStep(h, layout);
    if p != 0 {
      var k' := CarveBooks(k, p, layout);
      assert Aligned(p - h.offset, layout.align);
      BumpedCarved(h, k, start, h', p, layout);
      BumpedLists(h, k, start, h'.mem, p, layout);
      hide HeapInv, BumpStep, Zeroed, AllocStep;
      BumpedInv(h, k, start, h', p, layout);
    }
  }

  lemma BumpedInv(h: HeapState, k: Books, start: nat, h': HeapState, p: nat, layout: Layout)
    requires HeapInv(h, k, start) && Agrees(k, layout) && p !in k.carved && h'.buckets == h.buckets &&
             start <= h'.nextFree && Shape(h', k)
    requires var k' := CarveBooks(k, p, layout);
             && (forall q :: q in k'.carved ==> CarvedOk(h', k'.carved, start, q))
             && (forall q, r :: q in k'.carved && r in k'.carved ==> Apart(k'.carved, q, r))
             && (forall b :: 0 <= b < BUCKET_COUNT ==> Chain(h'.mem, h.buckets[b], k'.lists[b]))
             && (forall c, i :: 0 <= c < BUCKET_COUNT && 0 <= i < |k'.lists[c]| ==> ListedOk(k', c, i))
             && (forall c, i, d, j :: 0 <= c < BUCKET_COUNT && 0 <= i < |k'.lists[c]| && 0 <= d < BUCKET_COUNT &&
                                       0 <= j < |k'.lists[d]| ==>
                   ListedOnce(k', c, i, d, j))
    ensures HeapInv(h', CarveBooks(k, p, layout), start)
  {
    hide BucketFrom, Chain, Aligned;
    var k' := CarveBooks(k, p, layout);
    forall q | q in k'.live ensures q in k'.carved && LayoutOk(k', q) {
      if q != p {
        assert LayoutOk(k, q);
      }
    }
  }

  lemma BumpedCarved(h: HeapState, k: Books, start: nat, h': HeapState, p: nat, layout: Layout)
    requires HeapInv(h, k, start) && p >= h.nextFree + h.offset && p != 0 && Aligned(p - h.offset, layout.align)
    requires h'.offset == h.offset && h'.nextFree + h.offset == p + BlockSize(layout) && h.nextFree <= h'.nextFree
    ensures var k' := CarveBooks(k, p, layout);
            && p !in k.carved
            && (forall q :: q in k'.carved ==> CarvedOk(h', k'.carved, start, q))
            && (forall q, r :: q in k'.carved && r in k'.carved ==> Apart(k'.carved, q, r))
  {
    hide BucketFrom, Chain, Aligned, ListedOk, ListedOnce, LayoutOk, Apart, Shape;
    var k' := CarveBooks(k, p, layout);
    forall q | q in k.carved ensures q + k.carved[q].size <= p && CarvedOk(h', k'.carved, start, q) {
      assert CarvedOk(h, k.carved, start, q);
    }
    NewApart(k.carved, p, k'.carved[p]);
  }

  lemma NewApart(carved: map<nat, Block>, p: nat, b: Block)
    requires p !in carved && (forall q :: q in carved ==> q + carved[q].size <= p)
    requires forall q, r :: q in carved && r in carved ==> Apart(carved, q, r)
    ensures var carved' := carved[p := b]; forall q, r :: q in carved' && r in carved' ==> Apart(carved', q, r)
  {
    var carved' := carved[p := b];
    forall q, r | q in carved' && r in carved' ensures Apart(carved', q, r) {
      if q != p && r != p {
        assert Apart(carved, q, r);
      }
    }
  }

  lemma BumpedLists(h: HeapState, k: Books, start: nat, mem': Bytes, p: nat, layout: Layout)
    requires HeapInv(h, k, start) && p >= h.nextFree + h.offset
    requires mem' == Zeroed(h.mem, p, BlockSize(layout)) && p !in k.carved
    ensures var k' := CarveBooks(k, p, layout);
            && (forall b :: 0 <= b < BUCKET_COUNT ==> Chain(mem', h.buckets[b], k'.lists[b]))
            && (forall c, i :: 0 <= c < BUCKET_COUNT && 0 <= i < |k'.lists[c]| ==> ListedOk(k', c, i))
            && (forall c, i, d, j :: 0 <= c < BUCKET_COUNT && 0 <= i < |k'.lists[c]| && 0 <= d < BUCKET_COUNT &&
                                      0 <= j < |k'.lists[d]| ==>
                  ListedOnce(k', c, i, d, j))
  {
    var k' := CarveBooks(k, p, layout);
    forall c, i | 0 <= c < BUCKET_COUNT && 0 <= i < |k'.lists[c]| ensures ListedOk(k', c, i) {
      assert ListedOk(k, c, i);
    }
    forall c, i, d, j | 0 <= c < BUCKET_COUNT && 0 <= i < |k'.lists[c]| && 0 <= d < BUCKET_COUNT &&
        0 <= j < |k'.lists[d]|
      ensures ListedOnce(k', c, i, d, j)
    {
      assert ListedOnce(k, c, i, d, j);
    }
    forall b | 0 <= b < BUCKET_COUNT ensures Chain(mem', h.buckets[b], k'.lists[b]) {
      var list := k.lists[b];
      forall i, x | 0 <= i < |list| && list[i] <= x < list[i] + 8 ensures ByteAt(mem', x) == ByteAt(h.mem, x) {
        assert ListedOk(k, b, i);
        assert CarvedOk(h, k.carved, start, list[i]);
      }
      ChainFrame(h.mem, mem', h.buckets[b], list);
    }
  }

  // ---------------------------------------------------------------------------
  // Deallocation
  // ---------------------------------------------------------------------------

  function FreeBooks(k: Books, p: nat, layout: Layout): Books
    requires |k.lists| == BUCKET_COUNT
  {
    var index := BucketOf(layout);
    k.(live := k.live - {p}, lists := if index.Some? then k.lists[index.value := [p] + k.lists[index.value]]
       else k.lists)
  }

  lemma DeallocKeeps(h: HeapState, k: Books, start: nat, p: nat)
    requires HeapInv(h, k, start) && p in k.live
    ensures HeapInv(DeallocStep(h, p, k.live[p]), FreeBooks(k, p, k.live[p]), start)
  {
    var layout := k.live[p];
    var h', k' := DeallocStep(h, p, layout), FreeBooks(k, p, layout);
    assert LayoutOk(k, p) && CarvedOk(h, k.carved, start, p);
    LiveUnlisted(h, k, start, p);
    forall q | q in k'.carved ensures CarvedOk(h', k'.carved, start, q) {
      assert CarvedOk(h, k.carved, start, q);
    }
    forall q | q in k'.live ensures q in k'.carved && LayoutOk(k', q) {
      assert LayoutOk(k, q);
    }
    FreedLists(h, k, start, p);
    forall b | 0 <= b < BUCKET_COUNT ensures Chain(h'.mem, h'.buckets[b], k'.lists[b]) {
      if BucketOf(layout).Some? {
        FreedChain(h, k, start, p, b);
      }
    }
  }

  lemma FreedLists(h: HeapState, k: Books, start: nat, p: nat)
    requires HeapInv(h, k, start) && p in k.live && Unlisted(k, p)
    ensures var k' := FreeBooks(k, p, k.live[p]);
            && (forall c, i :: 0 <= c < BUCKET_COUNT && 0 <= i < |k'.lists[c]| ==> ListedOk(k', c, i))
            && (forall c, i, d, j :: 0 <= c < BUCKET_COUNT && 0 <= i < |k'.lists[c]| && 0 <= d < BUCKET_COUNT &&
                                      0 <= j < |k'.lists[d]| ==>
                  ListedOnce(k', c, i, d, j))
  {
    assert |k.lists| == BUCKET_COUNT && |k.classSize| == BUCKET_COUNT;
    hide HeapInv, FreeBooks, ListedOk, ListedOnce, Unlisted;
    FreedShape(k, p);
    var k' := FreeBooks(k, p, k.live[p]);
    forall c, i | 0 <= c < BUCKET_COUNT && 0 <= i < |k'.lists[c]| ensures ListedOk(k', c, i) {
      FreedOk(h, k, start, p, c, i);
    }
    forall c, i, d, j | 0 <= c < BUCKET_COUNT && 0 <= i < |k'.lists[c]| && 0 <= d < BUCKET_COUNT &&
        0 <= j < |k'.lists[d]|
      ensures ListedOnce(k', c, i, d, j)
    {
      FreedOnce(h, k, start, p, c, i, d, j);
    }
  }

  lemma FreedShape(k: Books, p: nat)
    requires |k.lists| == BUCKET_COUNT && p in k.live
    ensures |FreeBooks(k, p, k.live[p]).lists| == BUCKET_COUNT && FreeBooks(k, p, k.live[p]).classSize == k.classSize
  {
  }

  lemma FreedOk(h: HeapState, k: Books, start: nat, p: nat, c: nat, i: nat)
    requires HeapInv(h, k, start) && p in k.live && Unlisted(k, p)
    requires var k' := FreeBooks(k, p, k.live[p]); c < BUCKET_COUNT && i < |k'.lists[c]|
    ensures ListedOk(FreeBooks(k, p, k.live[p]), c, i)
  {
    hide BucketOf, Chain;
    assert LayoutOk(k, p);
    if FreedAt(k, p, c, i) >= 0 {
      assert ListedOk(k, c, FreedAt(k, p, c, i));
    }
  }

  /** Where entry `i` of list `c` stood before `p` was pushed; -1 for `p` itself. */
  function FreedAt(k: Books, p: nat, c: nat, i: nat): int
    requires p in k.live
  {
    if BucketOf(k.live[p]) == Some(c) then i - 1 else i
  }

  lemma FreedOnce(h: HeapState, k: Books, start: nat, p: nat, c: nat, i: nat, d: nat, j: nat)
    requires HeapInv(h, k, start) && p in k.live && Unlisted(k, p)
    requires var k' := FreeBooks(k, p, k.live[p]);
             c < BUCKET_COUNT && i < |k'.lists[c]| && d < BUCKET_COUNT && j < |k'.lists[d]|
    ensures ListedOnce(FreeBooks(k, p, k.live[p]), c, i, d, j)
  {
    hide BucketOf, Chain;
    var i0, j0 := FreedAt(k, p, c, i), FreedAt(k, p, d, j);
    if i0 >= 0 && j0 >= 0 {
      assert ListedOnce(k, c, i0, d, j0);
    }
  }

  lemma FreedChain(h: HeapState, k: Books, start: nat, p: nat, b: nat)
    requires HeapInv(h, k, start) && p in k.live && Unlisted(k, p) && BucketOf(k.live[p]).Some? && b < BUCKET_COUNT
    ensures Chain(DeallocStep(h, p, k.live[p]).mem, DeallocStep(h, p, k.live[p]).buckets[b],
                  FreeBooks(k, p, k.live[p]).lists[b])
  {
    var index := BucketOf(k.live[p]).value;
    var h' := DeallocStep(h, p, k.live[p]);
    assert LayoutOk(k, p) && CarvedOk(h, k.carved, start, p);
    forall x: nat | !(p <= x < p + 8) ensures ByteAt(h'.mem, x) == ByteAt(h.mem, x) {
      WriteFrame(h.mem, p, h.buckets[index], 8, x);
    }
    ListsIntact(h, k, start, h'.mem, p, b);
    if b == index {
      HeadBound(h, k, start, index);
      ReadWritten(h.mem, p, h.buckets[index], 8);
      assert ([p] + k.lists[index])[1..] == k.lists[index];
    }
  }

  lemma HeadBound(h: HeapState, k: Books, start: nat, b: nat)
    requires HeapInv(h, k, start) && b < BUCKET_COUNT
    ensures h.buckets[b] < Pow256(8)
  {
    Pow256Values();
    assert Chain(h.mem, h.buckets[b], k.lists[b]);
    if k.lists[b] != [] {
      assert ListedOk(k, b, 0);
      assert CarvedOk(h, k.carved, start, k.lists[b][0]);
    }
  }

  // ---------------------------------------------------------------------------
  // Runs
  // ---------------------------------------------------------------------------

  datatype HeapOp = Alloc(layout: Layout) | Dealloc(p: nat) | Write(a: nat, v: Byte)

  datatype HeapSys = HeapSys(h: HeapState, k: Books)

  function InitHeap(start: nat, size: nat, offset: nat, mem: Bytes, classSize: seq<nat>): HeapSys {
    HeapSys(HeapState(mem, seq(BUCKET_COUNT, i => 0), start + size, start, offset),
            Books(map[], map[], seq(BUCKET_COUNT, i => []), classSize))
  }

  /** `a` is a byte of a live block. */
  ghost predicate OwnedByte(k: Books, a: nat) {
    exists p :: p in k.live && p <= a < p + BlockSize(k.live[p])
  }

  /** Clients free what they hold and write where they hold, and requests in a bucket agree on size. */
  ghost predicate HeapEnabled(y: HeapSys, op: HeapOp) {
    && |y.k.classSize| == BUCKET_COUNT
    && match op
       case Alloc(layout) => Agrees(y.k, layout)
       case Dealloc(p) => p in y.k.live
       case Write(a, _) => OwnedByte(y.k, a)
  }

  ghost function AllocBooks(h: HeapState, k: Books, layout: Layout): Books
    requires |h.buckets| == BUCKET_COUNT && |k.lists| == BUCKET_COUNT && layout.align > 0
  {
    var p := AllocStep(h, layout).1;
    if p == 0 then k
    else if BucketOf(layout).Some? && k.lists[BucketOf(layout).value] != []
        then PopBooks(k, BucketOf(layout).value, p, layout)
    else CarveBooks(k, p, layout)
  }

  ghost function HeapNext(y: HeapSys, op: HeapOp): HeapSys
    requires |y.h.buckets| == BUCKET_COUNT && |y.k.lists| == BUCKET_COUNT && HeapEnabled(y, op)
  {
    match op
    case Alloc(layout) => HeapSys(AllocStep(y.h, layout).0, AllocBooks(y.h, y.k, layout))
    case Dealloc(p) => HeapSys(DeallocStep(y.h, p, y.k.live[p]), FreeBooks(y.k, p, y.k.live[p]))
    case Write(a, v) => HeapSys(ClientWriteStep(y.h, a, v), y.k)
  }

  /** `a` is where the `n` bytes of a block begin that shares nothing with the `m` bytes from `b`. */
  predicate Disjoint(a: nat, n: nat, b: nat, m: nat) {
    a + n <= b || b + m <= a
  }

  /** What allocation promises: null, or a zeroed block of the requested size nobody holds, inside the
      heap and away from every live block, with every byte of every live block as it was. */
  ghost predicate AllocPromise(y: HeapSys, layout: Layout, start: nat)
    requires |y.h.buckets| == BUCKET_COUNT && |y.k.lists| == BUCKET_COUNT && layout.align > 0
  {
    var (h', p) := AllocStep(y.h, layout);
    var k' := AllocBooks(y.h, y.k, layout);
    if p == 0 then h' == y.h && k' == y.k
    else
      && p !in y.k.live && k'.live == y.k.live[p := layout] && p in k'.carved && k'.carved[p].size == BlockSize(layout)
      && start + y.h.offset <= p && p + layout.size <= y.h.heapEnd + y.h.offset
      && (forall x: nat :: p <= x < p + layout.size ==> ByteAt(h'.mem, x) == 0)
      && (forall q :: q in y.k.live ==> Disjoint(p, layout.size, q, y.k.live[q].size))
      && (forall q, x :: q in y.k.live && q <= x < q + y.k.live[q].size ==> ByteAt(h'.mem, x) == ByteAt(y.h.mem, x))
  }

  /** Live blocks are pairwise disjoint and lie inside the heap, over every byte their owners asked for
      and the link they have room for. */
  lemma LiveApart(h: HeapState, k: Books, start: nat, p: nat, q: nat)
    requires HeapInv(h, k, start) && p in k.live && q in k.live && p != q
    ensures Disjoint(p, BlockSize(k.live[p]), q, BlockSize(k.live[q]))
    ensures Disjoint(p, k.live[p].size, q, k.live[q].size)
    ensures start + h.offset <= p && p + k.live[p].size <= h.heapEnd + h.offset && p + 8 <= h.heapEnd + h.offset
  {
    assert LayoutOk(k, p) && LayoutOk(k, q) && Apart(k.carved, p, q) && CarvedOk(h, k.carved, start, p);
  }

  /** A freed block waiting on a list overlaps no live block and no other listed block. */
  lemma ListedApart(h: HeapState, k: Books, start: nat, b: nat, i: nat, q: nat)
    requires HeapInv(h, k, start) && b < BUCKET_COUNT && i < |k.lists[b]|
    requires q in k.live ||
             exists c, j :: 0 <= c < BUCKET_COUNT && 0 <= j < |k.lists[c]| && (c != b || j != i) && k.lists[c][j] == q
    ensures var p := k.lists[b][i];
            && p in k.carved && q in k.carved && p != q
            && (p + k.classSize[b] <= q || q + k.carved[q].size <= p)
            && start + h.offset <= p && p + k.classSize[b] <= h.heapEnd + h.offset
  {
    var p := k.lists[b][i];
    assert ListedOk(k, b, i);
    if q in k.live {
      assert LayoutOk(k, q);
    } else {
      var c, j :| 0 <= c < BUCKET_COUNT && 0 <= j < |k.lists[c]| && (c != b || j != i) && k.lists[c][j] == q;
      assert ListedOk(k, c, j) && ListedOnce(k, c, j, b, i);
    }
    assert Apart(k.carved, p, q) && CarvedOk(h, k.carved, start, p);
  }

  lemma AllocZeroes(h: HeapState, layout: Layout)
    requires |h.buckets| == BUCKET_COUNT && layout.align > 0
    ensures var (h', p) := AllocStep(h, layout); p != 0 ==> h'.mem == Zeroed(h.mem, p, BlockSize(layout))
  {
  }

  /** The block handed out is entered in the books. */
  lemma AllocBooked(y: HeapSys, layout: Layout, start: nat)
    requires HeapInv(y.h, y.k, start) && Agrees(y.k, layout)
    ensures HeapInv(AllocStep(y.h, layout).0, AllocBooks(y.h, y.k, layout), start)
    ensures var (h', p) := AllocStep(y.h, layout);
            var k' := AllocBooks(y.h, y.k, layout);
            if p == 0 then h' == y.h && k' == y.k
            else p !in y.k.live && k'.live == y.k.live[p := layout] && p in k'.carved &&
                 k'.carved[p].size == BlockSize(layout)
  {
    hide BucketFrom, Aligned, BumpStep;
    var index := BucketOf(layout);
    if index.Some? {
      assert Chain(y.h.mem, y.h.buckets[index.value], y.k.lists[index.value]);
    }
    if index.Some? && y.h.buckets[index.value] != 0 {
      PopKeeps(y.h, y.k, start, layout);
    } else {
      BumpKeeps(y.h, y.k, start, layout);
    }
  }

  lemma AllocKeeps(y: HeapSys, layout: Layout, start: nat)
    requires HeapInv(y.h, y.k, start) && Agrees(y.k, layout)
    ensures HeapInv(AllocStep(y.h, layout).0, AllocBooks(y.h, y.k, layout), start)
    ensures AllocPromise(y, layout, start)
  {
    assert |y.h.buckets| == BUCKET_COUNT && |y.k.lists| == BUCKET_COUNT && layout.align > 0;
    hide HeapInv, AllocStep, AllocBooks, Zeroed, BucketOf, BlockSize, Agrees, Aligned;
    AllocBooked(y, layout, start);
    AllocZeroes(y.h, layout);
    AllocKeepsShape(y.h, layout);
    var p, h', k' := AllocStep(y.h, layout).1, AllocStep(y.h, layout).0, AllocBooks(y.h, y.k, layout);
    if p != 0 {
      LiveInside(h', k', start, p);
      forall q | q in y.k.live ensures Disjoint(p, BlockSize(layout), q, BlockSize(y.k.live[q])) {
        LiveApart(h', k', start, p, q);
      }
    }
  }

  lemma AllocKeepsShape(h: HeapState, layout: Layout)
    requires |h.buckets| == BUCKET_COUNT && layout.align > 0
    ensures AllocStep(h, layout).0.heapEnd == h.heapEnd && AllocStep(h, layout).0.offset == h.offset
  {
  }

  lemma LiveInside(h: HeapState, k: Books, start: nat, p: nat)
    requires HeapInv(h, k, start) && p in k.live
    ensures start + h.offset <= p && p + BlockSize(k.live[p]) <= h.heapEnd + h.offset
  {
    assert LayoutOk(k, p) && CarvedOk(h, k.carved, start, p);
  }

  /** A bump moves the mark past the requested bytes, and by less than the alignment more than it has to. */
  lemma BumpExtent(h: HeapState, layout: Layout)
    requires layout.align > 0 && h.nextFree + h.offset > 0
    ensures var (h', p) := BumpStep(h, layout);
            if p == 0 then h' == h
            else
              && h' == h.(nextFree := h'.nextFree) && h.offset <= p && h.nextFree <= p - h.offset
              && p - h.offset + layout.size <= h'.nextFree <= h.heapEnd
              && h.nextFree + layout.size <= h'.nextFree
              && (h'.nextFree < h.nextFree + layout.size + layout.align || h'.nextFree < h.nextFree + 8 + layout.align)
  {
  }

  /** The request fits at the aligned address `a` of the untouched part of the heap. */
  ghost predicate FitsAt(h: HeapState, layout: Layout, a: nat) {
    h.nextFree <= a && Aligned(a, layout.align) && a + layout.size <= h.heapEnd && a + 8 <= h.heapEnd
  }

  lemma AlignUpLeast(a: nat, align: nat, b: nat)
    requires align > 0 && a <= b && Aligned(b, align)
    ensures AlignUp(a, align) <= b
  {
    var q: nat :| MultipleOf(b, align, q);
    var r := (a + align - 1) / align;
    assert a + align - 1 < (q + 1) * align;
    Quotient(a + align - 1, align, q + 1);
    Product(r, q, align);
  }

  lemma Quotient(a: nat, n: nat, q: nat)
    requires n > 0 && a < q * n
    ensures a / n < q
  {
    assert a == a / n * n + a % n;
    if a / n >= q {
      Product(q, a / n, n);
    }
  }

  lemma Product(a: nat, b: nat, n: nat)
    requires a <= b
    ensures a * n <= b * n
  {
    assert (b - a) * n >= 0;
  }

  /** Null means what it should: the bucket's list is empty, and no aligned block of the requested size,
      and of a pointer's size, fits in what is left of the heap. */
  lemma AllocNullIff(h: HeapState, k: Books, start: nat, layout: Layout)
    requires HeapInv(h, k, start) && layout.align > 0
    ensures AllocStep(h, layout).1 == 0 <==>
            && (BucketOf(layout).Some? ==> k.lists[BucketOf(layout).value] == [])
            && !exists a :: FitsAt(h, layout, a)
  {
    hide BucketFrom, Aligned;
    if BucketOf(layout).Some? {
      assert Chain(h.mem, h.buckets[BucketOf(layout).value], k.lists[BucketOf(layout).value]);
    }
    var a := AlignUp(h.nextFree, layout.align);
    if a + BlockSize(layout) <= h.heapEnd {
      assert FitsAt(h, layout, a);
    }
    forall b | FitsAt(h, layout, b) ensures a + BlockSize(layout) <= h.heapEnd {
      AlignUpLeast(h.nextFree, layout.align, b);
    }
  }

  /** The last block freed into a bucket is the first one reused, and reusing it puts every list and the
      untouched part of the heap back as they were. */
  lemma FreeThenAlloc(h: HeapState, k: Books, start: nat, p: nat, layout: Layout)
    requires HeapInv(h, k, start) && p in k.live && layout.align > 0
    requires BucketOf(k.live[p]).Some? && BucketOf(layout) == BucketOf(k.live[p])
    ensures var (h', p') := AllocStep(DeallocStep(h, p, k.live[p]), layout);
            p' == p && h'.buckets == h.buckets && h'.nextFree == h.nextFree
  {
    hide BucketFrom, Aligned, ReadPtr, WritePtr, Zeroed;
    assert LayoutOk(k, p) && CarvedOk(h, k.carved, start, p);
    var b := BucketOf(layout).value;
    HeadBound(h, k, start, b);
    PtrWritten(h.mem, p, h.buckets[b]);
  }

  lemma PtrWritten(mem: Bytes, a: nat, p: nat)
    requires p < Pow256(8)
    ensures ReadPtr(WritePtr(mem, a, p), a) == p
  {
    ReadWritten(mem, a, p, 8);
  }

  /** A block too large for every bucket is not taken back: freeing it changes nothing at all. */
  lemma LargeNotReused(h: HeapState, p: nat, layout: Layout)
    requires |h.buckets| == BUCKET_COUNT && !Holds(layout, 2048)
    ensures DeallocStep(h, p, layout) == h
  {
    BucketIsLeast(layout);
  }

  /** Freeing a block changes no byte of the blocks that stay live. */
  lemma DeallocBytes(y: HeapSys, start: nat, p: nat, q: nat, x: nat)
    requires HeapInv(y.h, y.k, start) && p in y.k.live && q in y.k.live && p != q && q <= x < q + BlockSize(y.k.live[q])
    ensures ByteAt(DeallocStep(y.h, p, y.k.live[p]).mem, x) == ByteAt(y.h.mem, x)
  {
    LiveApart(y.h, y.k, start, p, q);
    var index := BucketOf(y.k.live[p]);
    if p != 0 && index.Some? {
      WriteFrame(y.h.mem, p, y.h.buckets[index.value], 8, x);
    }
  }

  lemma HeapStepKeeps(y: HeapSys, op: HeapOp, start: nat)
    requires HeapInv(y.h, y.k, start) && HeapEnabled(y, op)
    ensures HeapInv(HeapNext(y, op).h, HeapNext(y, op).k, start)
  {
    match op {
      case Alloc(layout) =>
        AllocKeeps(y, layout, start);
      case Dealloc(p) =>
        DeallocKeeps(y.h, y.k, start, p);
      case Write(a, v) =>
        var p :| p in y.k.live && p <= a < p + BlockSize(y.k.live[p]);
        ClientWriteKeeps(y.h, y.k, start, p, a, v);
    }
  }

  lemma InitHeapInv(start: nat, size: nat, offset: nat, mem: Bytes, classSize: seq<nat>)
    requires |classSize| == BUCKET_COUNT && start + size + offset < POINTER_LIMIT && start + offset > 0
    ensures var y := InitHeap(start, size, offset, mem, classSize); HeapInv(y.h, y.k, start)
  {
  }

  ghost predicate HeapRun(states: seq<HeapSys>, ops: seq<HeapOp>, start: nat, size: nat, offset: nat, mem: Bytes,
                          classSize: seq<nat>) {
    && |states| == |ops| + 1 && |classSize| == BUCKET_COUNT && start + size + offset < POINTER_LIMIT &&
        start + offset > 0
    && states[0] == InitHeap(start, size, offset, mem, classSize)
    && forall n :: 0 <= n < |ops| ==>
         |states[n].h.buckets| == BUCKET_COUNT && |states[n].k.lists| == BUCKET_COUNT && HeapEnabled(states[n], ops[n])
         && states[n + 1] == HeapNext(states[n], ops[n])
  }

  /** In every run the blocks stay disjoint and inside the heap, and the lists intact. */
  lemma {:induction false} HeapRunSafe(states: seq<HeapSys>, ops: seq<HeapOp>, start: nat, size: nat, offset: nat,
                                       mem: Bytes,
                                       classSize: seq<nat>, n: nat)
    requires HeapRun(states, ops, start, size, offset, mem, classSize) && n <= |ops|
    ensures HeapInv(states[n].h, states[n].k, start)
  {
    hide HeapInv, HeapNext, HeapEnabled;
    if n == 0 {
      InitHeapInv(start, size, offset, mem, classSize);
    } else {
      HeapRunSafe(states, ops, start, size, offset, mem, classSize, n - 1);
      HeapStepKeeps(states[n - 1], ops[n - 1], start);
    }
  }

  /** One step changes no byte of a live block that is neither freed nor written there. */
  lemma StepBytes(y: HeapSys, op: HeapOp, start: nat, p: nat, x: nat)
    requires HeapInv(y.h, y.k, start) && HeapEnabled(y, op) && p in y.k.live && p <= x < p + y.k.live[p].size
    requires op != Dealloc(p) && !(op.Write? && op.a == x)
    ensures var y' := HeapNext(y, op);
            p in y'.k.live && y'.k.live[p] == y.k.live[p] && ByteAt(y'.h.mem, x) == ByteAt(y.h.mem, x)
  {
    hide HeapInv, AllocStep, AllocBooks, DeallocStep;
    match op {
      case Alloc(layout) =>
        AllocKeeps(y, layout, start);
      case Dealloc(q) =>
        DeallocBytes(y, start, q, p, x);
      case Write(_, _) =>
    }
  }

  /** In every run, what a block holds is its owner's: a byte of it changes only when the block is freed
      or that byte is written, whatever is allocated, freed and written meanwhile. */
  lemma {:induction false} BytesPersist(states: seq<HeapSys>, ops: seq<HeapOp>, start: nat, size: nat, offset: nat,
                                        mem: Bytes, classSize: seq<nat>, m: nat, n: nat, p: nat, x: nat)
    requires HeapRun(states, ops, start, size, offset, mem, classSize) && m <= n <= |ops|
    requires p in states[m].k.live && p <= x < p + states[m].k.live[p].size
    requires forall i :: m <= i < n ==> ops[i] != Dealloc(p) && !(ops[i].Write? && ops[i].a == x)
    ensures p in states[n].k.live && states[n].k.live[p] == states[m].k.live[p]
    ensures ByteAt(states[n].h.mem, x) == ByteAt(states[m].h.mem, x)
    decreases n
  {
    hide HeapInv, HeapNext, HeapEnabled;
    if n > m {
      BytesPersist(states, ops, start, size, offset, mem, classSize, m, n - 1, p, x);
      HeapRunSafe(states, ops, start, size, offset, mem, classSize, n - 1);
      StepBytes(states[n - 1], ops[n - 1], start, p, x);
    }
  }

  /** In every run, every allocation keeps its promise. */
  lemma AllocInRun(states: seq<HeapSys>, ops: seq<HeapOp>, start: nat, size: nat, offset: nat, mem: Bytes,
                   classSize: seq<nat>, n: nat)
    requires HeapRun(states, ops, start, size, offset, mem, classSize) && n < |ops| && ops[n].Alloc?
    ensures |states[n].h.buckets| == BUCKET_COUNT && |states[n].k.lists| == BUCKET_COUNT && ops[n].layout.align > 0
    ensures AllocPromise(states[n], ops[n].layout, start)
  {
    hide HeapInv, AllocPromise, BucketOf, BlockSize;
    HeapRunSafe(states, ops, start, size, offset, mem, classSize, n);
    assert HeapEnabled(states[n], ops[n]);
    AllocKeeps(states[n], ops[n].layout, start);
  }

  /** The agreement is needed: whenever two sizes share a bucket, freeing the smaller block and
      asking for the larger one hands out a block that overlaps its live neighbour. */
  lemma MixedSizesOverlap(mem: Bytes, s: nat, t: nat)
    requires MIN_BLOCK_SIZE <= s < t && BucketOf(Layout(s, 1)).Some? && BucketOf(Layout(s, 1)) == BucketOf(Layout(t, 1))
    ensures var h0 := InitHeap(4096, s + 8, 0, mem, seq(BUCKET_COUNT, i => 0)).h;
            var (h1, p1) := AllocStep(h0, Layout(s, 1));
            var (h2, p2) := AllocStep(h1, Layout(8, 1));
            var h3 := DeallocStep(h2, p1, Layout(s, 1));
            var (h4, p4) := AllocStep(h3, Layout(t, 1));
            p2 != 0 && p4 == p1 && p4 < p2 < p4 + t
  {
    hide BucketFrom, Zeroed, WritePtr;
    SmallestBucket();
    var h0 := InitHeap(4096, s + 8, 0, mem, seq(BUCKET_COUNT, i => 0)).h;
    ByteAligned(4096);
    ByteAligned(4096 + s);
    var (h1, p1) := AllocStep(h0, Layout(s, 1));
    assert p1 == 4096 && h1.nextFree == 4096 + s && h1.buckets == h0.buckets;
    var (h2, p2) := AllocStep(h1, Layout(8, 1));
    assert p2 == 4096 + s;
    var b := BucketOf(Layout(s, 1)).value;
    var h3 := DeallocStep(h2, p1, Layout(s, 1));
    assert h3.buckets[b] == p1;
  }

  lemma ByteAligned(a: nat)
    ensures AlignUp(a, 1) == a
  {
  }

  lemma SmallestBucket()
    ensures BucketOf(Layout(8, 1)) == Some(0)
  {
  }

  // ---------------------------------------------------------------------------
  // The allocator in place
  // ---------------------------------------------------------------------------

  class FastBlockAllocator {
    var mem: Bytes
    const buckets: array<nat>
    const heapEnd: nat
    var nextFree: nat
    const offset: nat

    ghost predicate Valid()
      reads this, buckets
    {
      buckets.Length == BUCKET_COUNT
    }

    ghost function State(): HeapState
      reads this, buckets
    {
      HeapState(mem, buckets[..], heapEnd, nextFree, offset)
    }

    constructor (start: nat, size: nat, offset: nat, mem: Bytes)
      ensures Valid() && State() == InitHeap(start, size, offset, mem, seq(BUCKET_COUNT, i => 0)).h
    {
      this.mem := mem;
      buckets := new nat[BUCKET_COUNT](i => 0);
      heapEnd := start + size;
      nextFree := start;
      this.offset := offset;
    }

    method FallbackAlloc(layout: Layout) returns (p: nat)
      requires Valid() && layout.align > 0
      modifies this`nextFree
      ensures (State(), p) == BumpStep(old(State()), layout)
    {
      var start := AlignUp(nextFree, layout.align);
      var end := start + BlockSize(layout);
      if end > heapEnd {
        return 0;
      }
      nextFree := end;
      p := start + offset;
    }

    method Alloc(layout: Layout) returns (p: nat)
      requires Valid() && layout.align > 0
      modifies this`mem, this`nextFree, buckets
      ensures Valid() && (State(), p) == AllocStep(old(State()), layout)
      ensures p != 0 ==> forall x: nat :: p <= x < p + layout.size ==> ByteAt(mem, x) == 0
      ensures p == 0 ==> mem == old(mem)
      ensures forall x: nat :: x < p || (x >= p + 8 && x >= p + layout.size) ==> ByteAt(mem, x) == ByteAt(old(mem), x)
    {
      hide Zeroed, BumpStep;
      var index := BucketOf(layout);
      if index.Some? && buckets[index.value] != 0 {
        p := buckets[index.value];
        buckets[index.value] := ReadPtr(mem, p);
        assert buckets[..] == old(buckets[..])[index.value := buckets[index.value]];
      } else {
        p := FallbackAlloc(layout);
      }
      if p != 0 {
        ZeroFill(p, BlockSize(layout));
      }
    }

    method ZeroFill(p: nat, n: nat)
      modifies this`mem
      ensures mem == Zeroed(old(mem), p, n)
    {
      assert mem == Zeroed(old(mem), p, 0);
      for i := 0 to n
        invariant mem == Zeroed(old(mem), p, i)
      {
        ZeroMore(old(mem), p, i);
        mem := mem[p + i := 0];
      }
    }

    method Dealloc(p: nat, layout: Layout)
      requires Valid()
      modifies this`mem, buckets
      ensures Valid() && State() == DeallocStep(old(State()), p, layout)
    {
      if p == 0 {
        return;
      }
      var index := BucketOf(layout);
      if index.Some? {
        mem := WritePtr(mem, p, buckets[index.value]);
        buckets[index.value] := p;
        assert buckets[..] == old(buckets[..])[index.value := p];
      }
    }
  }
}
