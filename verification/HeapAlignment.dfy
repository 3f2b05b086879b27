/** How allocated blocks are aligned: as requested when they are carved, and as they were carved when
    they are reused. */
module HeapAlignment {
  import opened Basics
  import opened Heap

  lemma {:induction false} MulLe(a: nat, b: nat, n: nat)
    requires a <= b
    ensures a * n <= b * n
    decreases b
  {
    if a < b {
      MulLe(a, b - 1, n);
      assert b * n == (b - 1) * n + n;
    }
  }

  lemma Assoc(a: nat, b: nat, c: nat)
    ensures a * (b * c) == (a * b) * c
  {
  }

  /** A multiple of a multiple. */
  lemma Divides(a: nat, big: nat, small: nat)
    requires Aligned(a, big) && Aligned(big, small)
    ensures Aligned(a, small)
  {
    var q: nat :| MultipleOf(a, big, q);
    var r: nat :| MultipleOf(big, small, r);
    MulLe(0, q, r);
    var qr: nat := q * r;
    Assoc(q, r, small);
    assert MultipleOf(a, small, qr);
  }

  lemma HeapShape(h: HeapState, k: Books, start: nat)
    requires HeapInv(h, k, start)
    ensures |h.buckets| == BUCKET_COUNT && |k.lists| == BUCKET_COUNT && |k.classSize| == BUCKET_COUNT
  {
  }

  ghost predicate Reused(y: HeapSys, layout: Layout)
    requires |y.h.buckets| == BUCKET_COUNT
  {
    BucketOf(layout).Some? && y.h.buckets[BucketOf(layout).value] != 0
  }

  /** The block a request gets: the head of its bucket's list, or a new one carved for it. */
  lemma BlockOf(y: HeapSys, layout: Layout, start: nat)
    requires HeapInv(y.h, y.k, start) && Agrees(y.k, layout)
    ensures var p := AllocStep(y.h, layout).1;
            var k' := AllocBooks(y.h, y.k, layout);
            p != 0 ==>
              if Reused(y, layout) then
                var b := BucketOf(layout).value;
                y.k.lists[b] != [] && p == y.k.lists[b][0] && p in y.k.carved && k' == PopBooks(y.k, b, p, layout)
              else k' == CarveBooks(y.k, p, layout)
  {
    hide BucketFrom, Aligned, BumpStep;
    var index := BucketOf(layout);
    if index.Some? {
      assert Chain(y.h.mem, y.h.buckets[index.value], y.k.lists[index.value]);
    }
    if Reused(y, layout) {
      PopKeeps(y.h, y.k, start, layout);
    }
  }

  lemma SameOffset(h: HeapState, layout: Layout)
    requires |h.buckets| == BUCKET_COUNT && layout.align > 0
    ensures AllocStep(h, layout).0.offset == h.offset
  {
  }

  lemma CarvedAligned(h: HeapState, k: Books, start: nat, p: nat)
    requires HeapInv(h, k, start) && p in k.carved
    ensures h.offset <= p && Aligned(p - h.offset, k.carved[p].align)
  {
    assert CarvedOk(h, k.carved, start, p);
  }

  /** Adding the offset of the direct map keeps an alignment if and only if the offset has it. */
  lemma AlignedAbove(p: nat, offset: nat, align: nat)
    requires offset <= p && align > 0 && Aligned(p - offset, align)
    ensures Aligned(p, align) <==> Aligned(offset, align)
  {
    var d: nat :| MultipleOf(p - offset, align, d);
    if Aligned(offset, align) {
      var q: nat :| MultipleOf(offset, align, q);
      Sum(d, q, align);
      assert MultipleOf(p, align, d + q);
    } else if Aligned(p, align) {
      var q: nat :| MultipleOf(p, align, q);
      Difference(q, d, align);
      assert MultipleOf(offset, align, q - d);
    }
  }

  lemma Sum(a: nat, b: nat, c: nat)
    ensures a * c + b * c == (a + b) * c
  {
  }

  lemma Difference(a: nat, b: nat, c: nat)
    requires a * c >= b * c && c > 0
    ensures a >= b && a * c - b * c == (a - b) * c
  {
    if a < b {
      Sum(a, b - a, c);
      Times(b - a, c);
    }
  }

  lemma Times(a: nat, c: nat)
    requires a > 0 && c > 0
    ensures a * c > 0
  {
  }

  /** A new block is aligned as requested, physically. A reused one is aligned as it was carved, and so
      as requested whenever that alignment is a multiple of the requested one. The pointer handed out,
      which is the direct map's alias, is so aligned if and only if the map's offset is. */
  lemma AllocAligned(y: HeapSys, layout: Layout, start: nat)
    requires HeapInv(y.h, y.k, start) && Agrees(y.k, layout) && AllocStep(y.h, layout).1 != 0
    ensures var p := AllocStep(y.h, layout).1;
            && y.h.offset <= p
            && (!Reused(y, layout) ==> Aligned(p - y.h.offset, layout.align))
            && (Reused(y, layout) ==>
                  && p in y.k.carved && Aligned(p - y.h.offset, y.k.carved[p].align)
                  && (Aligned(y.k.carved[p].align, layout.align) ==> Aligned(p - y.h.offset, layout.align)))
            && (Aligned(p - y.h.offset, layout.align) ==>
                (Aligned(p, layout.align) <==> Aligned(y.h.offset, layout.align)))
  {
    hide HeapInv, AllocStep, Aligned, BucketFrom;
    HeapShape(y.h, y.k, start);
    var p, k' := AllocStep(y.h, layout).1, AllocBooks(y.h, y.k, layout);
    AllocKeeps(y, layout, start);
    SameOffset(y.h, layout);
    BlockOf(y, layout, start);
    CarvedAligned(AllocStep(y.h, layout).0, k', start, p);
    if Reused(y, layout) && Aligned(y.k.carved[p].align, layout.align) {
      Divides(p - y.h.offset, y.k.carved[p].align, layout.align);
    }
    if Aligned(p - y.h.offset, layout.align) {
      AlignedAbove(p, y.h.offset, layout.align);
    }
  }

  /** Agreement on sizes is not enough: whenever two alignments share a bucket, one a proper multiple
      of the other, a block freed with the smaller is handed out misaligned for the larger. */
  lemma MixedAlignments(mem: Bytes, s: nat, small: nat, big: nat, q: nat)
    requires MIN_BLOCK_SIZE <= s && 0 < small < big == q * small && BucketOf(Layout(s, small)).Some?
    requires BucketOf(Layout(s, small)) == BucketOf(Layout(s, big))
    ensures var h0 := InitHeap(big + small, s, 0, mem, seq(BUCKET_COUNT, i => 0)).h;
            var (h1, p1) := AllocStep(h0, Layout(s, small));
            var h2 := DeallocStep(h1, p1, Layout(s, small));
            var (h3, p3) := AllocStep(h2, Layout(s, big));
            p3 == p1 == big + small && !Aligned(p3, big)
  {
    hide BucketFrom, Zeroed, WritePtr, Aligned, AlignUp;
    var h0 := InitHeap(big + small, s, 0, mem, seq(BUCKET_COUNT, i => 0)).h;
    OneMore(q, small);
    AlreadyAligned(q + 1, small);
    var (h1, p1) := AllocStep(h0, Layout(s, small));
    assert p1 == big + small;
    var h2 := DeallocStep(h1, p1, Layout(s, small));
    assert h2.buckets[BucketOf(Layout(s, small)).value] == p1;
    Between(big, small);
  }

  lemma OneMore(q: nat, n: nat)
    ensures (q + 1) * n == q * n + n
  {
  }

  lemma Between(big: nat, small: nat)
    requires 0 < small < big
    ensures !Aligned(big + small, big)
  {
    if Aligned(big + small, big) {
      var q: nat :| MultipleOf(big + small, big, q);
      if q <= 1 {
        MulLe(q, 1, big);
      } else {
        MulLe(2, q, big);
      }
      assert false;
    }
  }

  lemma AlreadyAligned(q: nat, n: nat)
    requires n > 0
    ensures AlignUp(q * n, n) == q * n
  {
    var r := AlignUp(q * n, n);
    hide AlignUp;
    var p: nat :| MultipleOf(r, n, p);
    OneMore(q, n);
    if p > q {
      MulLe(q + 1, p, n);
    } else {
      MulLe(p, q, n);
    }
  }

  // ---------------------------------------------------------------------------
  // Runs that agree on alignment
  // ---------------------------------------------------------------------------

  predicate AgreesAlign(align: seq<nat>, layout: Layout)
    requires |align| == BUCKET_COUNT
  {
    BucketOf(layout).Some? ==> layout.align == align[BucketOf(layout).value]
  }

  predicate LiveAlign(k: Books, align: seq<nat>, p: nat)
    requires |align| == BUCKET_COUNT && p in k.live
  {
    p in k.carved && (BucketOf(k.live[p]).Some? ==> k.carved[p].align == align[BucketOf(k.live[p]).value])
  }

  predicate ListAlign(k: Books, align: seq<nat>, b: nat, i: nat)
    requires |align| == BUCKET_COUNT == |k.lists| && b < BUCKET_COUNT && i < |k.lists[b]|
  {
    k.lists[b][i] in k.carved && k.carved[k.lists[b][i]].align == align[b]
  }

  /** Blocks that are or will be of a bucket were carved with its alignment. */
  ghost predicate AlignInv(k: Books, align: seq<nat>) {
    && |align| == BUCKET_COUNT == |k.lists|
    && (forall p :: p in k.live ==> LiveAlign(k, align, p))
    && (forall b, i :: 0 <= b < BUCKET_COUNT && 0 <= i < |k.lists[b]| ==> ListAlign(k, align, b, i))
  }

  lemma PopAlign(k: Books, align: seq<nat>, b: nat, p: nat, layout: Layout)
    requires AlignInv(k, align) && b < BUCKET_COUNT && BucketOf(layout) == Some(b) && k.lists[b] != [] &&
             p == k.lists[b][0]
    ensures AlignInv(PopBooks(k, b, p, layout), align)
  {
    hide BucketOf;
    var k' := PopBooks(k, b, p, layout);
    assert ListAlign(k, align, b, 0);
    forall q | q in k'.live ensures LiveAlign(k', align, q) {
      assert q != p ==> LiveAlign(k, align, q);
    }
    forall c, i | 0 <= c < BUCKET_COUNT && 0 <= i < |k'.lists[c]| ensures ListAlign(k', align, c, i) {
      assert ListAlign(k, align, c, if c == b then i + 1 else i);
    }
  }

  lemma CarveAlign(k: Books, align: seq<nat>, p: nat, layout: Layout)
    requires AlignInv(k, align) && AgreesAlign(align, layout) && p !in k.carved
    ensures AlignInv(CarveBooks(k, p, layout), align)
  {
    hide BucketOf;
    var k' := CarveBooks(k, p, layout);
    forall q | q in k'.live ensures LiveAlign(k', align, q) {
      assert q != p ==> LiveAlign(k, align, q);
    }
    forall c, i | 0 <= c < BUCKET_COUNT && 0 <= i < |k'.lists[c]| ensures ListAlign(k', align, c, i) {
      assert ListAlign(k, align, c, i);
    }
  }

  lemma FreeAlign(k: Books, align: seq<nat>, p: nat)
    requires AlignInv(k, align) && p in k.live
    ensures AlignInv(FreeBooks(k, p, k.live[p]), align)
  {
    hide BucketFrom;
    var k' := FreeBooks(k, p, k.live[p]);
    assert LiveAlign(k, align, p);
    forall q | q in k'.live ensures LiveAlign(k', align, q) {
      assert LiveAlign(k, align, q);
    }
    var index := BucketOf(k.live[p]);
    forall c, i | 0 <= c < BUCKET_COUNT && 0 <= i < |k'.lists[c]| ensures ListAlign(k', align, c, i) {
      if index == Some(c) {
        assert i > 0 ==> ListAlign(k, align, c, i - 1);
      } else {
        assert ListAlign(k, align, c, i);
      }
    }
  }

  lemma NewIsUncarved(y: HeapSys, layout: Layout, start: nat)
    requires HeapInv(y.h, y.k, start) && Agrees(y.k, layout) && !Reused(y, layout)
    ensures AllocStep(y.h, layout).1 != 0 ==> AllocStep(y.h, layout).1 !in y.k.carved
  {
    BumpKeeps(y.h, y.k, start, layout);
  }

  lemma StepAlign(y: HeapSys, op: HeapOp, start: nat, align: seq<nat>)
    requires HeapInv(y.h, y.k, start) && HeapEnabled(y, op) && AlignInv(y.k, align)
    requires op.Alloc? ==> AgreesAlign(align, op.layout)
    ensures AlignInv(HeapNext(y, op).k, align)
    ensures op.Alloc? && AllocStep(y.h, op.layout).1 != 0 ==>
              y.h.offset <= AllocStep(y.h, op.layout).1 &&
                  Aligned(AllocStep(y.h, op.layout).1 - y.h.offset, op.layout.align)
  {
    hide HeapInv, AllocStep, AlignInv, Aligned, BucketFrom, DeallocStep;
    HeapShape(y.h, y.k, start);
    match op {
      case Alloc(layout) =>
        var p := AllocStep(y.h, layout).1;
        if p != 0 {
          BlockOf(y, layout, start);
          AllocAligned(y, layout, start);
          if Reused(y, layout) {
            PopAlign(y.k, align, BucketOf(layout).value, p, layout);
            HeadAlign(y.k, align, BucketOf(layout).value);
          } else {
            NewIsUncarved(y, layout, start);
            CarveAlign(y.k, align, p, layout);
          }
        }
      case Dealloc(p) =>
        FreeAlign(y.k, align, p);
      case Write(_, _) =>
    }
  }

  lemma HeadAlign(k: Books, align: seq<nat>, b: nat)
    requires AlignInv(k, align) && b < BUCKET_COUNT && k.lists[b] != []
    ensures k.lists[b][0] in k.carved && k.carved[k.lists[b][0]].align == align[b]
  {
    assert ListAlign(k, align, b, 0);
  }

  /** In every run whose requests agree within a bucket on size and on alignment, every block handed
      out is aligned as requested. */
  lemma {:induction false} AlignedRun(states: seq<HeapSys>, ops: seq<HeapOp>, start: nat, size: nat, offset: nat,
                                      mem: Bytes,
                                      classSize: seq<nat>, align: seq<nat>, n: nat)
    requires HeapRun(states, ops, start, size, offset, mem, classSize) && n <= |ops| && |align| == BUCKET_COUNT
    requires forall m :: 0 <= m < |ops| && ops[m].Alloc? ==> AgreesAlign(align, ops[m].layout)
    ensures AlignInv(states[n].k, align)
    ensures n < |ops| && ops[n].Alloc? ==>
              var p := AllocStep(states[n].h, ops[n].layout).1;
              p != 0 ==>
                && states[n].h.offset <= p && Aligned(p - states[n].h.offset, ops[n].layout.align)
                && (Aligned(p, ops[n].layout.align) <==> Aligned(states[n].h.offset, ops[n].layout.align))
  {
    hide HeapInv, HeapNext, AllocStep, AlignInv, Aligned, BucketOf;
    if n == 0 {
      assert AlignInv(states[0].k, align) by {
        StartAlign(start, size, offset, mem, classSize, align);
      }
    } else {
      AlignedRun(states, ops, start, size, offset, mem, classSize, align, n - 1);
      HeapRunSafe(states, ops, start, size, offset, mem, classSize, n - 1);
      StepAlign(states[n - 1], ops[n - 1], start, align);
    }
    if n < |ops| {
      HeapRunSafe(states, ops, start, size, offset, mem, classSize, n);
      StepAlign(states[n], ops[n], start, align);
      if ops[n].Alloc? && AllocStep(states[n].h, ops[n].layout).1 != 0 {
        AlignedAbove(AllocStep(states[n].h, ops[n].layout).1, states[n].h.offset, ops[n].layout.align);
      }
    }
  }

  lemma StartAlign(start: nat, size: nat, offset: nat, mem: Bytes, classSize: seq<nat>, align: seq<nat>)
    requires |align| == BUCKET_COUNT
    ensures AlignInv(InitHeap(start, size, offset, mem, classSize).k, align)
  {
  }
}
