/** Process address-space teardown: which frames it frees, in which order, and when that is right. */
module Teardown {
  import opened PageTables
  import opened Worlds
  import opened Vmm
  import opened Spaces

  // ---------------------------------------------------------------------------
  // The frees, in order
  // ---------------------------------------------------------------------------

  /** The frames freed below slots `lo .. n` of table `f`, in post-order. */
  ghost function Order(mem: Memory, f: Frame, level: nat, lo: nat, n: nat): seq<Frame>
    requires level <= 3
    decreases 3 - level, n
  {
    if n <= lo then []
    else
      Order(mem, f, level, lo, n - 1)
      + var e := At(mem, f, n - 1);
        if e.Absent? then []
        else if level == 3 then [e.frame]
        else Order(mem, e.frame, level + 1, 0, ENTRIES) + [e.frame]
  }

  lemma OrderStep(mem: Memory, f: Frame, level: nat, lo: nat, n: nat)
    requires level <= 3 && lo <= n
    ensures Order(mem, f, level, lo, lo) == []
    ensures var e := At(mem, f, n);
            Order(mem, f, level, lo, n + 1) ==
              if e.Absent? then Order(mem, f, level, lo, n)
              else if level == 3 then Order(mem, f, level, lo, n) + [e.frame]
              else Order(mem, f, level, lo, n) + Order(mem, e.frame, level + 1, 0, ENTRIES) + [e.frame]
    ensures level < 3 && At(mem, f, n).Present? ==> Order(mem, At(mem, f, n).frame, level + 1, 0, 0) == []
  {
  }

  ghost function TeardownOrder(mem: Memory, root: Frame): seq<Frame> {
    Order(mem, root, 0, 1, ENTRIES) + [root]
  }

  /** What the allocator's free set becomes after freeing `frames`. */
  ghost function FreedInto(free: set<Frame>, frames: seq<Frame>, cap: nat): set<Frame> {
    free + set f | f in frames && 0 < f < cap
  }

  lemma FreedNone(free: set<Frame>, cap: nat)
    ensures FreedInto(free, [], cap) == free
  {
  }

  lemma FreedMore(free: set<Frame>, frames: seq<Frame>, f: Frame, cap: nat)
    ensures FreedInto(free, frames + [f], cap) == FreedInto(free, frames, cap) + (if 0 < f < cap then {f} else {})
  {
  }

  method FreeOne(m: Machine, f: Frame, ghost free0: set<Frame>, ghost freed: seq<Frame>)
      returns (ghost freed': seq<Frame>)
    requires m.pmm.FreeSet() == FreedInto(free0, freed, m.pmm.Capacity())
    modifies m.pmm.bitmap
    ensures freed' == freed + [f]
    ensures m.pmm.FreeSet() == FreedInto(free0, freed', m.pmm.Capacity())
  {
    FreedMore(free0, freed, f, m.pmm.Capacity());
    m.pmm.FreeFrame(f);
    freed' := freed + [f];
  }

  lemma Regroup(done: seq<Frame>, a: seq<Frame>, b: seq<Frame>, f: Frame)
    ensures done + a + b + [f] == done + (a + b + [f]) && done + a + [f] == done + (a + [f])
  {
  }

  /** Frees every frame reachable from slots 1..511 of `root`, then `root`. `freed` lists the
      frees in the order they are made; memory contents are left as they are. */
  method FreeProcessPageTable(m: Machine, root: Frame) returns (ghost freed: seq<Frame>)
    modifies m.pmm.bitmap
    ensures freed == TeardownOrder(m.mem, root)
    ensures m.pmm.FreeSet() == FreedInto(old(m.pmm.FreeSet()), freed, m.pmm.Capacity())
  {
    hide Order, FreedInto, At;
    ghost var free0, cap := m.pmm.FreeSet(), m.pmm.Capacity();
    freed := [];
    FreedNone(free0, cap);
    OrderStep(m.mem, root, 0, 1, 1);
    for l0 := 1 to ENTRIES
      invariant freed == Order(m.mem, root, 0, 1, l0)
      invariant m.pmm.FreeSet() == FreedInto(free0, freed, cap)
    {
      OrderStep(m.mem, root, 0, 1, l0);
      var e0 := At(m.mem, root, l0);
      if e0.Absent? {
        continue;
      }
      ghost var done0 := freed;
      for l1 := 0 to ENTRIES
        invariant freed == done0 + Order(m.mem, e0.frame, 1, 0, l1)
        invariant m.pmm.FreeSet() == FreedInto(free0, freed, cap)
      {
        OrderStep(m.mem, e0.frame, 1, 0, l1);
        var e1 := At(m.mem, e0.frame, l1);
        if e1.Absent? {
          continue;
        }
        ghost var done1 := freed;
        for l2 := 0 to ENTRIES
          invariant freed == done1 + Order(m.mem, e1.frame, 2, 0, l2)
          invariant m.pmm.FreeSet() == FreedInto(free0, freed, cap)
        {
          OrderStep(m.mem, e1.frame, 2, 0, l2);
          var e2 := At(m.mem, e1.frame, l2);
          if e2.Absent? {
            continue;
          }
          ghost var done2 := freed;
          for l3 := 0 to ENTRIES
            invariant freed == done2 + Order(m.mem, e2.frame, 3, 0, l3)
            invariant m.pmm.FreeSet() == FreedInto(free0, freed, cap)
          {
            OrderStep(m.mem, e2.frame, 3, 0, l3);
            var e3 := At(m.mem, e2.frame, l3);
            if e3.Absent? {
              continue;
            }
            Regroup(done2, Order(m.mem, e2.frame, 3, 0, l3), [], e3.frame);
            freed := FreeOne(m, e3.frame, free0, freed);
          }
          Regroup(done1, Order(m.mem, e1.frame, 2, 0, l2), Order(m.mem, e2.frame, 3, 0, ENTRIES), e2.frame);
          freed := FreeOne(m, e2.frame, free0, freed);
        }
        Regroup(done0, Order(m.mem, e0.frame, 1, 0, l1), Order(m.mem, e1.frame, 2, 0, ENTRIES), e1.frame);
        freed := FreeOne(m, e1.frame, free0, freed);
      }
      freed := FreeOne(m, e0.frame, free0, freed);
    }
    freed := FreeOne(m, root, free0, freed);
  }

  // ---------------------------------------------------------------------------
  // The frames of one space, tables and pages alike
  // ---------------------------------------------------------------------------

  ghost predicate ChildOf(mem: Memory, nodes: Tags, s: Frame, f: Frame, i: nat)
    requires f in nodes
  {
    At(mem, f, i).Present? ==>
      At(mem, f, i).frame in nodes
      && nodes[At(mem, f, i).frame] == Tag(s, nodes[f].level + 1, nodes[f].prefix * ENTRIES + i, f)
  }

  ghost predicate ParentOf(mem: Memory, nodes: Tags, s: Frame, c: Frame)
    requires c in nodes
  {
    var t := nodes[c];
    if t.level == 0 then c == s && t.prefix == 0
    else
      && t.parent in nodes && nodes[t.parent].space == s && nodes[t.parent].level == t.level - 1
      && t.prefix / ENTRIES == nodes[t.parent].prefix
      && At(mem, t.parent, t.prefix % ENTRIES).Present? && At(mem, t.parent, t.prefix % ENTRIES).frame == c
  }

  /** The frames of space `s` form one tree of depth four, and slots 1..511 of its root lead into it. */
  ghost predicate Forest(mem: Memory, nodes: Tags, s: Frame) {
    && s in nodes && nodes[s].level == 0 && nodes[s].space == s && nodes[s].prefix == 0
    && (forall f :: f in nodes && nodes[f].space == s ==> nodes[f].level <= 4)
    && (forall f, i {:trigger ChildOf(mem, nodes, s, f, i)} ::
          f in nodes && nodes[f].space == s && nodes[f].level < 4 && 0 <= i < ENTRIES &&
              (nodes[f].level == 0 ==> i >= 1) ==>
            ChildOf(mem, nodes, s, f, i))
    && (forall c {:trigger ParentOf(mem, nodes, s, c)} :: c in nodes && nodes[c].space == s ==>
        ParentOf(mem, nodes, s, c))
  }

  /** The prefix of the ancestor at level `k` of a frame at `level` with prefix `p`. */
  ghost function Anc(level: nat, p: nat, k: nat): nat {
    if level <= k then p else Anc(level - 1, p / ENTRIES, k)
  }

  lemma {:induction false} AncStep(level: nat, p: nat, k: nat)
    requires k < level
    ensures Anc(level, p, k) == Anc(level, p, k + 1) / ENTRIES
  {
    if level > k + 1 {
      AncStep(level - 1, p / ENTRIES, k);
    }
  }

  /** A position in a space has at most one frame. */
  lemma {:induction false} UniqueNode(mem: Memory, nodes: Tags, s: Frame, f: Frame, g: Frame)
    requires Forest(mem, nodes, s) && f in nodes && g in nodes && nodes[f].space == s && nodes[g].space == s
    requires nodes[f].level == nodes[g].level && nodes[f].prefix == nodes[g].prefix
    ensures f == g
    decreases nodes[f].level
  {
    assert ParentOf(mem, nodes, s, f) && ParentOf(mem, nodes, s, g);
    if nodes[f].level > 0 {
      UniqueNode(mem, nodes, s, nodes[f].parent, nodes[g].parent);
    }
  }

  /** The ancestor at level `k` exists. */
  lemma {:induction false} Ancestor(mem: Memory, nodes: Tags, s: Frame, x: Frame, k: nat) returns (c: Frame)
    requires Forest(mem, nodes, s) && x in nodes && nodes[x].space == s && k <= nodes[x].level
    ensures c in nodes && nodes[c].space == s && nodes[c].level == k
    ensures nodes[c].prefix == Anc(nodes[x].level, nodes[x].prefix, k)
    decreases nodes[x].level
  {
    if nodes[x].level == k {
      c := x;
    } else {
      assert ParentOf(mem, nodes, s, x);
      c := Ancestor(mem, nodes, s, nodes[x].parent, k);
    }
  }

  /** `x` lies below one of the slots `lo .. n` of the table at `level` with prefix `p`. */
  ghost predicate Below(nodes: Tags, s: Frame, x: Frame, level: nat, p: nat, lo: nat, n: nat) {
    x in nodes && nodes[x].space == s && nodes[x].level > level
    && p * ENTRIES + lo <= Anc(nodes[x].level, nodes[x].prefix, level + 1) < p * ENTRIES + n
  }

  ghost predicate NoRepeat(s: seq<Frame>) {
    forall i, j :: 0 <= i < j < |s| ==> s[i] != s[j]
  }

  lemma NoRepeatConcat(a: seq<Frame>, b: seq<Frame>)
    requires NoRepeat(a) && NoRepeat(b) && forall x :: x in a ==> x !in b
    ensures NoRepeat(a + b)
  {
    forall i, j | 0 <= i < j < |a + b| ensures (a + b)[i] != (a + b)[j] {
      if i < |a| <= j {
        assert a[i] in a && b[j - |a|] in b;
      }
    }
  }

  /** Frames below different slots are different frames. */
  lemma JoinSlots(nodes: Tags, s: Frame, level: nat, p: nat, lo: nat, mid: nat, hi: nat, a: seq<Frame>, b: seq<Frame>)
    requires lo <= mid <= hi && NoRepeat(a) && NoRepeat(b)
    requires forall x :: x in a ==> Below(nodes, s, x, level, p, lo, mid)
    requires forall x :: x in b ==> Below(nodes, s, x, level, p, mid, hi)
    ensures NoRepeat(a + b)
    ensures forall x :: x in a + b ==> Below(nodes, s, x, level, p, lo, hi)
  {
    NoRepeatConcat(a, b);
  }

  /** Everything freed below a table is a frame of its space below that table, freed once. */
  lemma {:induction false} OrderSound(mem: Memory, nodes: Tags, s: Frame, f: Frame, level: nat, lo: nat, n: nat)
    requires Forest(mem, nodes, s) && f in nodes && nodes[f].space == s && nodes[f].level == level <= 3
    requires lo <= n <= ENTRIES && (level == 0 ==> lo >= 1)
    ensures forall x :: x in Order(mem, f, level, lo, n) ==> Below(nodes, s, x, level, nodes[f].prefix, lo, n)
    ensures NoRepeat(Order(mem, f, level, lo, n))
    decreases 3 - level, n
  {
    hide Forest, Order, Below;
    OrderStep(mem, f, level, lo, lo);
    if n > lo {
      OrderSound(mem, nodes, s, f, level, lo, n - 1);
      OrderStep(mem, f, level, lo, n - 1);
      var e := At(mem, f, n - 1);
      var done := Order(mem, f, level, lo, n - 1);
      var sub := [];
      if e.Present? {
        SubtreeSound(mem, nodes, s, f, level, n - 1);
        sub := (if level == 3 then [] else Order(mem, e.frame, level + 1, 0, ENTRIES)) + [e.frame];
      }
      JoinSlots(nodes, s, level, nodes[f].prefix, lo, n - 1, n, done, sub);
      assert Order(mem, f, level, lo, n) == done + sub;
    }
  }

  lemma ChildIs(mem: Memory, nodes: Tags, s: Frame, f: Frame, i: nat)
    requires Forest(mem, nodes, s) && f in nodes && nodes[f].space == s && nodes[f].level < 4
    requires i < ENTRIES && (nodes[f].level == 0 ==> i >= 1) && At(mem, f, i).Present?
    ensures var c := At(mem, f, i).frame;
            c in nodes && nodes[c] == Tag(s, nodes[f].level + 1, nodes[f].prefix * ENTRIES + i, f)
  {
    assert ChildOf(mem, nodes, s, f, i);
  }

  /** What lies below a child lies below the slot of the child. */
  lemma BelowChild(nodes: Tags, s: Frame, x: Frame, level: nat, p: nat, i: nat)
    requires i < ENTRIES && Below(nodes, s, x, level + 1, p * ENTRIES + i, 0, ENTRIES)
    ensures Below(nodes, s, x, level, p, i, i + 1)
  {
    AncStep(nodes[x].level, nodes[x].prefix, level + 1);
  }

  lemma {:induction false} SubtreeSound(mem: Memory, nodes: Tags, s: Frame, f: Frame, level: nat, i: nat)
    requires Forest(mem, nodes, s) && f in nodes && nodes[f].space == s && nodes[f].level == level <= 3
    requires i < ENTRIES && (level == 0 ==> i >= 1) && At(mem, f, i).Present?
    ensures var c := At(mem, f, i).frame;
            var sub := if level == 3 then [] else Order(mem, c, level + 1, 0, ENTRIES);
            && NoRepeat(sub + [c])
            && forall x :: x in sub + [c] ==> Below(nodes, s, x, level, nodes[f].prefix, i, i + 1)
    decreases 3 - level, 0
  {
    hide Forest, Order, At;
    ChildIs(mem, nodes, s, f, i);
    var c, p := At(mem, f, i).frame, nodes[f].prefix;
    if level < 3 {
      OrderSound(mem, nodes, s, c, level + 1, 0, ENTRIES);
      var sub := Order(mem, c, level + 1, 0, ENTRIES);
      forall x | x in sub ensures Below(nodes, s, x, level, p, i, i + 1) && x != c {
        BelowChild(nodes, s, x, level, p, i);
      }
      NoRepeatConcat(sub, [c]);
    }
  }

  /** The frame at a child's position is the one the slot leads to. */
  lemma SlotOf(mem: Memory, nodes: Tags, s: Frame, f: Frame, i: nat, c: Frame)
    requires Forest(mem, nodes, s) && f in nodes && c in nodes && nodes[f].space == s && nodes[c].space == s &&
             i < ENTRIES
    requires nodes[c].level == nodes[f].level + 1 && nodes[c].prefix == nodes[f].prefix * ENTRIES + i
    ensures At(mem, f, i).Present? && At(mem, f, i).frame == c
  {
    assert ParentOf(mem, nodes, s, c);
    UniqueNode(mem, nodes, s, nodes[c].parent, f);
  }

  lemma DepthBound(mem: Memory, nodes: Tags, s: Frame, x: Frame)
    requires Forest(mem, nodes, s) && x in nodes && nodes[x].space == s
    ensures nodes[x].level <= 4
  {
  }

  /** Every frame of the space below a table is freed. */
  lemma {:induction false} OrderComplete(mem: Memory, nodes: Tags, s: Frame, f: Frame, level: nat, lo: nat, n: nat,
                                         x: Frame)
    requires Forest(mem, nodes, s) && f in nodes && nodes[f].space == s && nodes[f].level == level <= 3
    requires n <= ENTRIES
    requires Below(nodes, s, x, level, nodes[f].prefix, lo, n)
    ensures x in Order(mem, f, level, lo, n)
    decreases 3 - level, n
  {
    hide Forest, Order, At;
    OrderStep(mem, f, level, lo, n - 1);
    var a := Anc(nodes[x].level, nodes[x].prefix, level + 1);
    if a < nodes[f].prefix * ENTRIES + (n - 1) {
      OrderComplete(mem, nodes, s, f, level, lo, n - 1, x);
    } else {
      var c := Ancestor(mem, nodes, s, x, level + 1);
      SlotOf(mem, nodes, s, f, n - 1, c);
      DepthBound(mem, nodes, s, x);
      if nodes[x].level == level + 1 {
        UniqueNode(mem, nodes, s, x, c);
      } else {
        AncStep(nodes[x].level, nodes[x].prefix, level + 1);
        OrderComplete(mem, nodes, s, c, level + 1, 0, ENTRIES, x);
      }
    }
  }

  // ---------------------------------------------------------------------------
  // When teardown is exact
  // ---------------------------------------------------------------------------

  /** Slot `i` of `root` is empty or leads to a table of the process itself. */
  ghost predicate OwnSlot(w: World, kroot: Frame, root: Frame, i: nat) {
    At(w.mem, root, i).Present? ==>
        At(w.mem, root, i).frame in w.tags && w.tags[At(w.mem, root, i).frame].space != kroot
  }

  ghost predicate OwnSlots(w: World, kroot: Frame, root: Frame) {
    forall i {:trigger OwnSlot(w, kroot, root, i)} :: 1 <= i < ENTRIES ==> OwnSlot(w, kroot, root, i)
  }

  /** Slot 0 of `root` is empty or the kernel's. */
  ghost predicate SharedZero(w: World, kroot: Frame, root: Frame) {
    At(w.mem, root, 0).Present? ==>
        At(w.mem, root, 0).frame in w.tags && w.tags[At(w.mem, root, 0).frame].space == kroot
  }

  /** The layout teardown is written for: slot 0 is the kernel's, the others are private. */
  ghost predicate PrivateSlots(w: World, kroot: Frame, root: Frame) {
    OwnSlots(w, kroot, root) && SharedZero(w, kroot, root)
  }

  lemma SpaceForest(w: World, pages: Tags, kroot: Frame, cap: nat, root: Frame)
    requires Sound(w, kroot) && Owned(w, kroot, pages, cap) && IsRoot(w.tags, root) && root != kroot
    requires OwnSlots(w, kroot, root)
    ensures Forest(w.mem, w.tags + pages, root)
  {
    var nodes := w.tags + pages;
    forall f, i | f in nodes && nodes[f].space == root && nodes[f].level < 4 && 0 <= i < ENTRIES &&
        (nodes[f].level == 0 ==> i >= 1)
      ensures ChildOf(w.mem, nodes, root, f, i)
    {
      SpaceChild(w, pages, kroot, cap, root, f, i);
    }
    forall c | c in nodes && nodes[c].space == root ensures ParentOf(w.mem, nodes, root, c) && nodes[c].level <= 4 {
      SpaceParent(w, pages, kroot, cap, root, c);
    }
  }

  lemma SpaceChild(w: World, pages: Tags, kroot: Frame, cap: nat, root: Frame, f: Frame, i: nat)
    requires Sound(w, kroot) && Owned(w, kroot, pages, cap) && IsRoot(w.tags, root) && root != kroot
    requires OwnSlots(w, kroot, root)
    requires var nodes := w.tags + pages;
             f in nodes && nodes[f].space == root && nodes[f].level < 4 && i < ENTRIES &&
                 (nodes[f].level == 0 ==> i >= 1)
    ensures ChildOf(w.mem, w.tags + pages, root, f, i)
  {
    assert f in pages ==> PageLinked(w, kroot, pages, f);
    if w.tags[f].level < 3 {
      assert BackwardAt(w.mem, w.tags, f);
      assert ForwardAt(w.mem, kroot, w.tags, f, i);
      assert w.tags[f].level == 0 ==> OwnSlot(w, kroot, root, i);
    } else {
      assert LeafOwned(w, pages, f, i);
    }
  }

  lemma SpaceParent(w: World, pages: Tags, kroot: Frame, cap: nat, root: Frame, c: Frame)
    requires Sound(w, kroot) && Owned(w, kroot, pages, cap) && IsRoot(w.tags, root) && root != kroot
    requires OwnSlots(w, kroot, root)
    requires c in w.tags + pages && (w.tags + pages)[c].space == root
    ensures ParentOf(w.mem, w.tags + pages, root, c) && (w.tags + pages)[c].level <= 4
  {
    if c in pages {
      assert PageLinked(w, kroot, pages, c);
    } else {
      assert BackwardAt(w.mem, w.tags, c);
    }
  }

  /** The frames recorded for a space. */
  ghost function SpaceFrames(w: World, pages: Tags, s: Frame): set<Frame> {
    (set f | f in w.tags && w.tags[f].space == s) + (set f | f in pages && pages[f].space == s)
  }

  /** Teardown frees each frame of the process once and no other frame. */
  lemma TeardownExact(w: World, pages: Tags, kroot: Frame, cap: nat, root: Frame)
    requires Sound(w, kroot) && Owned(w, kroot, pages, cap) && IsRoot(w.tags, root) && root != kroot
    requires PrivateSlots(w, kroot, root)
    ensures NoRepeat(TeardownOrder(w.mem, root))
    ensures forall x :: x in TeardownOrder(w.mem, root) <==> x in SpaceFrames(w, pages, root)
    ensures forall x :: x in SpaceFrames(w, pages, root) ==> 0 < x < cap && x !in w.free
  {
    var nodes := w.tags + pages;
    SpaceForest(w, pages, kroot, cap, root);
    NodesSpace(w, pages, kroot, cap, root);
    forall x | x in nodes && nodes[x].space == root && nodes[x].level == 1 ensures nodes[x].prefix >= 1 {
      assert x in pages ==> PageLinked(w, kroot, pages, x);
      assert BackwardAt(w.mem, w.tags, x);
      assert BackwardAt(w.mem, w.tags, w.tags[x].parent);
    }
    ForestOrder(w.mem, nodes, root);
  }

  lemma NodesSpace(w: World, pages: Tags, kroot: Frame, cap: nat, root: Frame)
    requires Sound(w, kroot) && Owned(w, kroot, pages, cap) && root != kroot
    ensures forall x :: x in SpaceFrames(w, pages, root) <==> x in w.tags + pages && (w.tags + pages)[x].space == root
    ensures forall x :: x in SpaceFrames(w, pages, root) ==> 0 < x < cap && x !in w.free
  {
  }

  lemma ForestOrder(mem: Memory, nodes: Tags, root: Frame)
    requires Forest(mem, nodes, root)
    requires forall x :: x in nodes && nodes[x].space == root && nodes[x].level == 1 ==> nodes[x].prefix >= 1
    ensures NoRepeat(TeardownOrder(mem, root))
    ensures forall x :: x in TeardownOrder(mem, root) <==> x in nodes && nodes[x].space == root
  {
    hide Order;
    OrderSound(mem, nodes, root, root, 0, 1, ENTRIES);
    NoRepeatConcat(Order(mem, root, 0, 1, ENTRIES), [root]);
    forall x | x in nodes && nodes[x].space == root && x != root ensures x in Order(mem, root, 0, 1, ENTRIES) {
      assert ParentOf(mem, nodes, root, x);
      var c := Ancestor(mem, nodes, root, x, 1);
      assert ParentOf(mem, nodes, root, c);
      assert ParentOf(mem, nodes, root, nodes[c].parent);
      OrderComplete(mem, nodes, root, root, 0, 1, ENTRIES, x);
    }
  }

  /** Teardown leaves every table of the kernel allocated exactly when no slot but slot 0 of
      the process root leads to one. */
  lemma TeardownSparesKernel(w: World, pages: Tags, kroot: Frame, cap: nat, root: Frame)
    requires Sound(w, kroot) && Owned(w, kroot, pages, cap) && IsRoot(w.tags, root) && root != kroot
    requires forall f :: f in w.tags && w.tags[f].space == kroot ==> 0 < f < cap
    ensures (forall f :: f in w.tags && w.tags[f].space == kroot ==>
             f !in FreedInto(w.free, TeardownOrder(w.mem, root), cap))
            <==> OwnSlots(w, kroot, root)
  {
    hide Order;
    if OwnSlots(w, kroot, root) {
      var nodes := w.tags + pages;
      SpaceForest(w, pages, kroot, cap, root);
      NodesSpace(w, pages, kroot, cap, root);
      OrderSound(w.mem, nodes, root, root, 0, 1, ENTRIES);
    } else {
      var i :| 1 <= i < ENTRIES && !OwnSlot(w, kroot, root, i);
      assert ForwardAt(w.mem, kroot, w.tags, root, i);
      SlotFreed(w.mem, root, 1, ENTRIES, i);
    }
  }

  /** The table behind a present slot is among the frees. */
  lemma {:induction false} SlotFreed(mem: Memory, root: Frame, lo: nat, n: nat, i: nat)
    requires lo <= i < n && At(mem, root, i).Present?
    ensures At(mem, root, i).frame in Order(mem, root, 0, lo, n)
  {
    OrderStep(mem, root, 0, lo, n - 1);
    if i < n - 1 {
      SlotFreed(mem, root, lo, n - 1, i);
    }
  }
}
