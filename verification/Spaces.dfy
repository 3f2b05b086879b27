/** Ownership of data frames by process address spaces, and the operations that keep it. */
module Spaces {
  import opened Basics
  import opened PageTables
  import opened Worlds
  import opened Vmm

  predicate IsPage(mem: Memory, f: Frame) {
    f in mem && mem[f].Data? && |mem[f].bytes| == PAGE_SIZE
  }

  function ZeroPage(): (c: Contents)
    ensures c.Data? && |c.bytes| == PAGE_SIZE
    ensures forall k :: 0 <= k < PAGE_SIZE ==> c.bytes[k] == 0
  {
    Data(seq(PAGE_SIZE, i => 0))
  }

  /** A present leaf of a process table leads to a data frame recorded for that page. */
  predicate LeafOwned(w: World, pages: Tags, t: Frame, i: nat)
    requires t in w.tags
  {
    At(w.mem, t, i).Present? ==>
      At(w.mem, t, i).frame in pages && pages[At(w.mem, t, i).frame] == ChildTag(w.tags, t, i)
  }

  /** A recorded data frame hangs off exactly the leaf its record names. */
  predicate PageLinked(w: World, kroot: Frame, pages: Tags, c: Frame)
    requires c in pages
  {
    var p := pages[c];
    && p.parent in w.tags && w.tags[p.parent].level == 3 && p.space != kroot
    && p == ChildTag(w.tags, p.parent, p.prefix % ENTRIES)
    && At(w.mem, p.parent, p.prefix % ENTRIES).Present?
    && At(w.mem, p.parent, p.prefix % ENTRIES).frame == c
  }

  /** Every user page of every process has a frame of its own, and process frames are frames
      the allocator can take back. */
  ghost predicate Owned(w: World, kroot: Frame, pages: Tags, cap: nat) {
    && (forall f :: f in w.free ==> 0 < f < cap)
    && (forall f :: f in w.tags && w.tags[f].space != kroot ==> 0 < f < cap)
    && (forall f :: f in pages ==> 0 < f < cap && f !in w.tags && f !in w.free && IsPage(w.mem, f))
    && (forall t, i {:trigger LeafOwned(w, pages, t, i)} ::
          t in w.tags && w.tags[t].level == 3 && w.tags[t].space != kroot && 0 <= i < ENTRIES ==>
              LeafOwned(w, pages, t, i))
    && (forall c {:trigger PageLinked(w, kroot, pages, c)} :: c in pages ==> PageLinked(w, kroot, pages, c))
  }

  /** New empty tables do not disturb ownership. */
  lemma OwnedGrows(w: World, w': World, kroot: Frame, pages: Tags, cap: nat, spaces: set<Frame>)
    requires Owned(w, kroot, pages, cap) && Tree(w.mem, kroot, w.tags) && Grows(w, w', spaces)
    ensures Owned(w', kroot, pages, cap)
  {
    forall t, i | t in w'.tags && w'.tags[t].level == 3 && w'.tags[t].space != kroot && 0 <= i < ENTRIES
      ensures LeafOwned(w', pages, t, i)
    {
      if t in w.tags {
        assert LeafOwned(w, pages, t, i);
        assert w'.mem[t] == w.mem[t];
      }
    }
    forall c | c in pages ensures PageLinked(w', kroot, pages, c) {
      assert PageLinked(w, kroot, pages, c);
      assert w'.mem[pages[c].parent] == w.mem[pages[c].parent];
    }
  }

  /** Filling an empty leaf with a frame nobody uses, and recording it. */
  lemma OwnedMap(w: World, kroot: Frame, pages: Tags, cap: nat, t: Frame, i: nat, frame: Frame, flags: MapFlags)
    requires Owned(w, kroot, pages, cap) && t in w.tags && IsTable(w.mem, t) && i < ENTRIES
    requires w.tags[t].level == 3 && At(w.mem, t, i).Absent?
    requires frame !in w.tags && frame !in w.free && frame !in pages && 0 < frame < cap && IsPage(w.mem, frame)
    ensures w.tags[t].space != kroot ==>
              Owned(w.(mem := SetEntry(w.mem, t, i, Present(frame, flags))), kroot,
                    pages[frame := ChildTag(w.tags, t, i)], cap)
    ensures w.tags[t].space == kroot ==>
              Owned(w.(mem := SetEntry(w.mem, t, i, Present(frame, flags))), kroot, pages, cap)
  {
    var w' := w.(mem := SetEntry(w.mem, t, i, Present(frame, flags)));
    var pages' := if w.tags[t].space != kroot then pages[frame := ChildTag(w.tags, t, i)] else pages;
    forall s, j | s in w'.tags && w'.tags[s].level == 3 && w'.tags[s].space != kroot && 0 <= j < ENTRIES
      ensures LeafOwned(w', pages', s, j)
    {
      assert LeafOwned(w, pages, s, j);
    }
    forall c | c in pages' ensures PageLinked(w', kroot, pages', c) {
      if c in pages {
        assert PageLinked(w, kroot, pages, c);
      }
    }
  }

  /** Clearing an owned leaf and giving its frame back. */
  lemma OwnedUnmap(w: World, kroot: Frame, pages: Tags, cap: nat, t: Frame, i: nat)
    requires Owned(w, kroot, pages, cap) && t in w.tags && IsTable(w.mem, t) && i < ENTRIES
    requires w.tags[t].level == 3 && w.tags[t].space != kroot && At(w.mem, t, i).Present?
    ensures var frame := At(w.mem, t, i).frame;
            && frame in pages && pages[frame] == ChildTag(w.tags, t, i)
            && Owned(World(SetEntry(w.mem, t, i, Absent), w.tags, w.free + {frame}), kroot, pages - {frame}, cap)
  {
    assert LeafOwned(w, pages, t, i);
    var frame := At(w.mem, t, i).frame;
    var w' := World(SetEntry(w.mem, t, i, Absent), w.tags, w.free + {frame});
    var pages' := pages - {frame};
    forall s, j | s in w'.tags && w'.tags[s].level == 3 && w'.tags[s].space != kroot && 0 <= j < ENTRIES
      ensures LeafOwned(w', pages', s, j)
    {
      assert LeafOwned(w, pages, s, j);
    }
    forall c | c in pages' ensures PageLinked(w', kroot, pages', c) {
      assert PageLinked(w, kroot, pages, c);
    }
  }

  /** Taking a frame and writing to it changes neither trees nor ownership. */
  lemma OwnedTake(w: World, kroot: Frame, pages: Tags, cap: nat, frame: Frame, c: Contents)
    requires Sound(w, kroot) && Owned(w, kroot, pages, cap) && frame in w.free
    ensures var w' := World(w.mem[frame := c], w.tags, w.free - {frame});
            Sound(w', kroot) && Owned(w', kroot, pages, cap) && SameWalks(w, w')
  {
    var w' := World(w.mem[frame := c], w.tags, w.free - {frame});
    SameTablesTree(w.mem, w'.mem, kroot, w.tags);
    forall r, v | IsRoot(w.tags, r) && 0 <= v < VPN_LIMIT ensures Walk(w'.mem, r, v) == Walk(w.mem, r, v) {
      SameTablesSameWalk(w.mem, w'.mem, kroot, w.tags, r, v);
    }
    forall t, i | t in w.tags && w.tags[t].level == 3 && w.tags[t].space != kroot && 0 <= i < ENTRIES
      ensures LeafOwned(w', pages, t, i)
    {
      assert LeafOwned(w, pages, t, i);
    }
    forall d | d in pages ensures PageLinked(w', kroot, pages, d) {
      assert PageLinked(w, kroot, pages, d);
    }
  }

  // ---------------------------------------------------------------------------
  // What an operation on one address space leaves alone, and what it accounts for
  // ---------------------------------------------------------------------------

  /** Tables and pages of every space outside `spaces` are the same frames with the same contents. */
  ghost predicate Kept(w: World, pages: Tags, w': World, pages': Tags, spaces: set<Frame>) {
    && (forall f :: f in w.tags && w.tags[f].space !in spaces ==>
          f in w'.tags && w'.tags[f] == w.tags[f] && f in w'.mem && f in w.mem && w'.mem[f] == w.mem[f])
    && (forall f :: f in w'.tags && w'.tags[f].space !in spaces ==> f in w.tags && w.tags[f] == w'.tags[f])
    && (forall f :: f in pages && pages[f].space !in spaces ==>
          f in pages' && pages'[f] == pages[f] && f in w'.mem && f in w.mem && w'.mem[f] == w.mem[f])
    && (forall f :: f in pages' && pages'[f].space !in spaces ==> f in pages && pages[f] == pages'[f])
  }

  lemma KeptTrans(w: World, p: Tags, w1: World, p1: Tags, w2: World, p2: Tags, spaces: set<Frame>)
    requires Kept(w, p, w1, p1, spaces) && Kept(w1, p1, w2, p2, spaces)
    ensures Kept(w, p, w2, p2, spaces)
  {
  }

  /** Table tags and links stay, and every other frame in use keeps its contents. */
  ghost predicate Persist(w: World, w': World, pages: Tags) {
    && (forall f :: f in w.tags ==> f in w'.tags && w'.tags[f] == w.tags[f])
    && LinksKept(w, w')
    && (forall f :: f in pages ==> f in w.mem && f in w'.mem && w'.mem[f] == w.mem[f])
    && (forall f :: Held(w, f) ==> Held(w', f) && w'.mem[f] == w.mem[f])
  }

  /** A frame in use that is no table. */
  ghost predicate Held(w: World, f: Frame) {
    f in w.mem && f !in w.tags && f !in w.free
  }

  ghost predicate LinksKept(w: World, w': World) {
    forall f, i {:trigger KeepsLink(At(w.mem, f, i), At(w'.mem, f, i))} ::
      f in w.tags && w.tags[f].level < 3 ==> KeepsLink(At(w.mem, f, i), At(w'.mem, f, i))
  }

  lemma PersistTrans(w: World, w1: World, w2: World, pages: Tags)
    requires Persist(w, w1, pages) && Persist(w1, w2, pages)
    ensures Persist(w, w2, pages)
  {
    forall f, i | f in w.tags && w.tags[f].level < 3 ensures KeepsLink(At(w.mem, f, i), At(w2.mem, f, i)) {
      assert KeepsLink(At(w.mem, f, i), At(w1.mem, f, i)) && KeepsLink(At(w1.mem, f, i), At(w2.mem, f, i));
    }
  }

  /** Frames that are free, or recorded as a table or as a page. */
  ghost function Accounted(w: World, pages: Tags): set<Frame> {
    w.free + w.tags.Keys + pages.Keys
  }

  lemma FreeApart(w: World, pages: Tags, kroot: Frame, cap: nat)
    requires Sound(w, kroot) && Owned(w, kroot, pages, cap)
    ensures w.free !! w.tags.Keys && w.free !! pages.Keys
  {
    hide Tree;
  }

  ghost predicate SpacesValid(m: Machine)
    reads m, m.pmm.bitmap
  {
    m.Valid() && Owned(m.W(), m.kroot, m.pages, m.pmm.Capacity())
  }

  // ---------------------------------------------------------------------------
  // Taking, zeroing and mapping a frame
  // ---------------------------------------------------------------------------

  datatype FreshMap = NoFrame | NotMapped(frame: Frame, error: MemoryError) | Mapped(frame: Frame)

  ghost function TakenWorld(w: World, frame: Frame): World {
    World(w.mem[frame := ZeroPage()], w.tags, w.free - {frame})
  }

  /** The spaces whose tables an edit at `v` through `root` may touch. */
  ghost function Reach(w: World, root: Frame, v: nat): set<Frame> {
    {root, PathSpace(w, root, v)}
  }

  ghost predicate FreshOutcome(w: World, root: Frame, va: nat, r: FreshMap) {
    if w.free == {} then r == NoFrame
    else
      !r.NoFrame? && r.frame in w.free
      && var out := MapOutcome(w.(free := w.free - {r.frame}), root, va, 0);
         r == if out.Ok? then Mapped(r.frame) else NotMapped(r.frame, out.error)
  }

  /** The page now translates to `frame`, which holds zeros and is recorded for `root` unless
      the path belongs to the kernel. */
  ghost predicate PageAdded(w: World, pages: Tags, w': World, pages': Tags, kroot: Frame, root: Frame, va: nat,
                            flags: MapFlags, frame: Frame) {
    && Flat(w'.mem, root) == Flat(w.mem, root)[Vpn(va) := Present(frame, flags)]
    && frame in w'.mem && w'.mem[frame] == ZeroPage() && frame !in w'.tags && frame !in w'.free && frame !in pages
    && (if PathSpace(w, root, Vpn(va)) == kroot then pages' == pages
        else frame in pages' && pages' == pages[frame := pages'[frame]]
             && pages'[frame].space == root && pages'[frame].prefix == Vpn(va))
  }

  /** The frame taken for good: one whose mapping fails, or one that goes into tables of the kernel. */
  ghost function LostBy(w: World, kroot: Frame, root: Frame, va: nat, r: FreshMap): set<Frame> {
    if r.NotMapped? || (r.Mapped? && PathSpace(w, root, Vpn(va)) == kroot) then {r.frame} else {}
  }

  /** The whole effect of taking, zeroing and mapping a frame at `va`. */
  ghost predicate FreshStep(w: World, pages: Tags, w': World, pages': Tags, kroot: Frame, root: Frame,
                            va: nat, flags: MapFlags, r: FreshMap)
  {
    && FreshOutcome(w, root, va, r)
    && (if r.Mapped? then PageAdded(w, pages, w', pages', kroot, root, va, flags, r.frame)
        else pages' == pages && SameWalks(w, w') && (r.NoFrame? ==> w' == w))
    && Persist(w, w', pages)
    && OthersUntouched(w, w', kroot, root, Vpn(va)) && OtherSlotsKept(w, w', root, Vpn(va))
    && Kept(w, pages, w', pages', Reach(w, root, Vpn(va)))
    && Accounted(w', pages') == Accounted(w, pages) - LostBy(w, kroot, root, va, r)
    && FreshTables(w, w', root, va, r)
  }

  /** Only table entries on the path change, and a page that gets mapped costs one frame and the tables
      its path lacked. */
  ghost predicate FreshTables(w: World, w': World, root: Frame, va: nat, r: FreshMap) {
    && TablesEdited(w, w', root, Vpn(va))
    && (r.Mapped? ==> |w'.free| + 1 + Missing(w.mem, root, Vpn(va)) == |w.free|)
  }

  lemma NoFrameStep(w: World, pages: Tags, kroot: Frame, cap: nat, root: Frame, va: nat, flags: MapFlags)
    requires w.free == {} && Sound(w, kroot) && Owned(w, kroot, pages, cap)
    ensures FreshStep(w, pages, w, pages, kroot, root, va, flags, NoFrame)
  {
    hide TablesEdited;
    UneditedKept(w, root, Vpn(va));
  }

  /** Phase one, taking and zeroing a frame: only the free set changes. */
  lemma TakeKept(w: World, pages: Tags, kroot: Frame, cap: nat, spaces: set<Frame>, frame: Frame)
    requires Sound(w, kroot) && Owned(w, kroot, pages, cap) && frame in w.free
    ensures Kept(w, pages, TakenWorld(w, frame), pages, spaces)
    ensures Persist(w, TakenWorld(w, frame), pages)
    ensures Accounted(TakenWorld(w, frame), pages) == Accounted(w, pages) - {frame}
  {
    TakeAccounted(w, pages, frame);
  }

  lemma TakeAccounted(w: World, pages: Tags, frame: Frame)
    requires frame !in w.tags && frame !in pages
    ensures Accounted(TakenWorld(w, frame), pages) == Accounted(w, pages) - {frame}
  {
  }

  lemma TakeOutcome(w: World, kroot: Frame, root: Frame, va: nat, frame: Frame)
    requires Sound(w, kroot) && IsRoot(w.tags, root) && frame in w.free
    ensures PathSpace(TakenWorld(w, frame), root, Vpn(va)) == PathSpace(w, root, Vpn(va))
    ensures Missing(TakenWorld(w, frame).mem, root, Vpn(va)) == Missing(w.mem, root, Vpn(va))
  {
    var mem' := TakenWorld(w, frame).mem;
    assert SameLinks(w.mem, mem', w.tags);
    SameLinksSamePath(w.mem, mem', kroot, w.tags, root, Vpn(va), 1);
    SameLinksSamePath(w.mem, mem', kroot, w.tags, root, Vpn(va), 2);
    SameLinksSamePath(w.mem, mem', kroot, w.tags, root, Vpn(va), 3);
  }

  /** Phase two, building the path. */
  lemma BuildKept(w: World, w': World, kroot: Frame, pages: Tags, cap: nat, spaces: set<Frame>)
    requires Tree(w.mem, kroot, w.tags) && Owned(w, kroot, pages, cap) && Grows(w, w', spaces)
    ensures Kept(w, pages, w', pages, spaces) && Persist(w, w', pages)
    ensures Accounted(w', pages) == Accounted(w, pages)
  {
    hide Accounted, Persist, SameWalks, Tree;
    TablesAre(w, kroot);
    BuildPersists(w, w', kroot, pages, cap, spaces);
    BuildAccounted(w, w', pages, spaces);
  }

  lemma BuildPersists(w: World, w': World, kroot: Frame, pages: Tags, cap: nat, spaces: set<Frame>)
    requires Tree(w.mem, kroot, w.tags) && Owned(w, kroot, pages, cap) && Grows(w, w', spaces)
    ensures Persist(w, w', pages)
  {
    hide SameWalks, Tree;
  }

  lemma TablesAre(w: World, kroot: Frame)
    requires Tree(w.mem, kroot, w.tags)
    ensures forall f :: f in w.tags ==> IsTable(w.mem, f)
  {
  }

  lemma BuildAccounted(w: World, w': World, pages: Tags, spaces: set<Frame>)
    requires GrowsTags(w, w', spaces)
    ensures Accounted(w', pages) == Accounted(w, pages)
  {
    forall f ensures f in Accounted(w', pages) <==> f in Accounted(w, pages) {
    }
  }

  /** Phase three, writing the leaf. */
  lemma LeafKept(w: World, pages: Tags, kroot: Frame, cap: nat, t: Frame, v: nat, frame: Frame, flags: MapFlags,
                 spaces: set<Frame>)
    requires Sound(w, kroot) && Owned(w, kroot, pages, cap) && t in w.tags && IsTable(w.mem, t)
    requires w.tags[t].level == 3 && frame !in pages && w.tags[t].space in spaces
    ensures var w' := LeafWorld(w, t, v, Present(frame, flags));
            var pages' := pages[frame := ChildTag(w.tags, t, Index(v, 3))];
            && Kept(w, pages, w', pages, spaces) && Kept(w, pages, w', pages', spaces) && Persist(w, w', pages)
            && Accounted(w', pages) == Accounted(w, pages) && Accounted(w', pages') == Accounted(w, pages) + {frame}
  {
    hide Accounted, Persist, Tree;
    TablesAre(w, kroot);
    LeafPersists(w, pages, kroot, cap, t, v, Present(frame, flags));
    LeafAccounted(w, LeafWorld(w, t, v, Present(frame, flags)), pages, frame, ChildTag(w.tags, t, Index(v, 3)));
  }

  lemma LeafPersists(w: World, pages: Tags, kroot: Frame, cap: nat, t: Frame, v: nat, leaf: Entry)
    requires Sound(w, kroot) && Owned(w, kroot, pages, cap) && t in w.tags && IsTable(w.mem, t) && w.tags[t].level == 3
    ensures Persist(w, LeafWorld(w, t, v, leaf), pages)
  {
    hide Tree;
  }

  lemma LeafAccounted(w: World, w': World, pages: Tags, frame: Frame, tag: Tag)
    requires w'.tags == w.tags && w'.free == w.free
    ensures Accounted(w', pages) == Accounted(w, pages)
    ensures Accounted(w', pages[frame := tag]) == Accounted(w, pages) + {frame}
  {
  }

  lemma PathBuilt(w: World, pages: Tags, w': World, kroot: Frame, cap: nat, root: Frame, va: nat, frame: Frame,
                  spaces: set<Frame>)
    requires Sound(w, kroot) && Owned(w, kroot, pages, cap) && IsRoot(w.tags, root) && frame in w.free
    requires Grows(TakenWorld(w, frame), w', spaces)
    ensures Owned(w', kroot, pages, cap) && SameWalks(w, w')
    ensures Kept(w, pages, w', pages, spaces) && Persist(w, w', pages)
    ensures Accounted(w', pages) == Accounted(w, pages) - {frame}
    ensures MapOutcome(TakenWorld(w, frame), root, va, frame * PAGE_SIZE) == MapOutcome(w.(free := w.free - {frame}),
            root, va, 0)
  {
    hide Kept, Persist, Accounted, Missing, Owned, Tree, GrowsMem, GrowsTags;
    var w1 := TakenWorld(w, frame);
    OwnedTake(w, kroot, pages, cap, frame, ZeroPage());
    TakeKept(w, pages, kroot, cap, spaces, frame);
    TakeOutcome(w, kroot, root, va, frame);
    OwnedGrows(w1, w', kroot, pages, cap, spaces);
    BuildKept(w1, w', kroot, pages, cap, spaces);
    KeptTrans(w, pages, w1, pages, w', pages, spaces);
    PersistTrans(w, w1, w', pages);
  }

  lemma TakenSlots(w: World, w': World, kroot: Frame, root: Frame, va: nat, frame: Frame)
    requires Sound(w, kroot) && frame in w.free && OtherSlotsKept(TakenWorld(w, frame), w', root, Vpn(va))
    ensures OtherSlotsKept(w, w', root, Vpn(va))
  {
    hide Index, Vpn;
    var w1 := TakenWorld(w, frame);
    forall r, i | IsRoot(w.tags, r) && (r != root || i != Index(Vpn(va), 0))
        ensures At(w'.mem, r, i) == At(w.mem, r, i) {
      assert IsRoot(w1.tags, r) && At(w1.mem, r, i) == At(w.mem, r, i);
    }
  }

  lemma TakenEdited(w: World, w': World, kroot: Frame, root: Frame, va: nat, frame: Frame)
    requires Sound(w, kroot) && frame in w.free && TablesEdited(TakenWorld(w, frame), w', root, Vpn(va))
    ensures TablesEdited(w, w', root, Vpn(va))
  {
    hide OnPath, Vpn;
    var w1 := TakenWorld(w, frame);
    forall f, i | f in w'.tags && w'.tags[f].level < 3 && 0 <= i < ENTRIES ensures KeptAt(w, w', root, Vpn(va), f, i) {
      assert KeptAt(w1, w', root, Vpn(va), f, i);
      assert Was(w1, f, i) == Was(w, f, i);
    }
  }

  /** Taking a frame changes no entry of any path. */
  lemma TakenEntries(w: World, kroot: Frame, root: Frame, v: nat, frame: Frame, level: nat)
    requires Sound(w, kroot) && IsRoot(w.tags, root) && frame in w.free && v < VPN_LIMIT && level <= 2
    ensures EntryOf(TakenWorld(w, frame).mem, root, v, level) == EntryOf(w.mem, root, v, level)
  {
    hide Index;
    var mem' := TakenWorld(w, frame).mem;
    assert SameLinks(w.mem, mem', w.tags);
    SameLinksSamePath(w.mem, mem', kroot, w.tags, root, v, level);
    if TableOf(w.mem, root, v, level).Some? {
      PathTag(w.mem, kroot, w.tags, root, v, level);
    }
  }

  lemma TakenRights(w: World, kroot: Frame, root: Frame, v: nat, frame: Frame, arch: Arch, mem': Memory,
                    flags: MapFlags)
    requires Sound(w, kroot) && IsRoot(w.tags, root) && frame in w.free && v < VPN_LIMIT
    requires RightsGiven(arch, TakenWorld(w, frame).mem, mem', root, v, flags)
    ensures RightsGiven(arch, w.mem, mem', root, v, flags)
  {
    hide EntryOf, UserMay, Sound;
    forall level | 0 <= level <= 2
      ensures EntryOf(TakenWorld(w, frame).mem, root, v, level) == EntryOf(w.mem, root, v, level)
    {
      TakenEntries(w, kroot, root, v, frame, level);
    }
    forall a ensures TablesAllow(TakenWorld(w, frame).mem, root, v, a) <==> TablesAllow(w.mem, root, v, a) {
    }
  }

  lemma NotMappedStep(w: World, pages: Tags, w': World, kroot: Frame, cap: nat, root: Frame, va: nat, flags: MapFlags,
                      frame: Frame, error: MemoryError)
    requires Sound(w, kroot) && Owned(w, kroot, pages, cap) && IsRoot(w.tags, root) && frame in w.free
    requires Grows(TakenWorld(w, frame), w', Reach(w, root, Vpn(va)))
    requires MapOutcome(TakenWorld(w, frame), root, va, frame * PAGE_SIZE) == Err(error)
    requires OtherSlotsKept(TakenWorld(w, frame), w', root, Vpn(va))
    requires TablesEdited(TakenWorld(w, frame), w', root, Vpn(va))
    ensures Owned(w', kroot, pages, cap)
    ensures FreshStep(w, pages, w', pages, kroot, root, va, flags, NotMapped(frame, error))
  {
    hide Kept, Persist, Accounted, Missing, Owned, Sound, Grows, Walk, OtherSlotsKept, TablesEdited;
    TakenSlots(w, w', kroot, root, va, frame);
    TakenEdited(w, w', kroot, root, va, frame);
    PathBuilt(w, pages, w', kroot, cap, root, va, frame, Reach(w, root, Vpn(va)));
  }

  /** The path to `va` is built in `mid`, ready for the leaf. */
  ghost predicate PathReady(w: World, mid: World, kroot: Frame, root: Frame, va: nat, frame: Frame, t: Frame) {
    && Sound(w, kroot) && Sound(mid, kroot) && IsRoot(w.tags, root) && frame in w.free
    && Grows(TakenWorld(w, frame), mid, Reach(w, root, Vpn(va)))
    && MapOutcome(TakenWorld(w, frame), root, va, frame * PAGE_SIZE) == Ok
    && t in mid.tags && IsTable(mid.mem, t) && TableOf(mid.mem, root, Vpn(va), 3) == Some(t)
    && mid.tags[t].space == PathSpace(w, root, Vpn(va)) && mid.tags[t].level == 3 && IsRoot(mid.tags, root)
  }

  lemma ReadyFacts(w: World, pages: Tags, mid: World, kroot: Frame, cap: nat, root: Frame, va: nat, frame: Frame,
                   t: Frame)
    requires PathReady(w, mid, kroot, root, va, frame, t) && Owned(w, kroot, pages, cap)
    ensures frame !in mid.tags && frame !in mid.free && frame !in pages && 0 < frame < cap
    ensures IsPage(mid.mem, frame) && mid.mem[frame] == ZeroPage()
    ensures At(mid.mem, t, Index(Vpn(va), 3)).Absent?
    ensures ChildTag(mid.tags, t, Index(Vpn(va), 3)).prefix == Vpn(va)
    ensures mid.tags[t].space == root || mid.tags[t].space == kroot
  {
    var w1 := TakenWorld(w, frame);
    PathTag(mid.mem, kroot, mid.tags, root, Vpn(va), 3);
    PrefixSplit(Vpn(va), 3);
    assert Walk(mid.mem, root, Vpn(va)) == Walk(w1.mem, root, Vpn(va));
  }

  /** The ownership records after the leaf is written. */
  ghost function RecordPage(pages: Tags, tags: Tags, kroot: Frame, t: Frame, v: nat, frame: Frame): Tags
    requires t in tags
  {
    if tags[t].space == kroot then pages else pages[frame := ChildTag(tags, t, Index(v, 3))]
  }

  lemma MappedKept(w: World, pages: Tags, mid: World, kroot: Frame, cap: nat, root: Frame, va: nat, flags: MapFlags,
                   frame: Frame, t: Frame)
    requires PathReady(w, mid, kroot, root, va, frame, t) && Owned(w, kroot, pages, cap)
    ensures var pages' := RecordPage(pages, mid.tags, kroot, t, Vpn(va), frame);
            var w' := LeafWorld(mid, t, Vpn(va), Present(frame, flags));
            && Owned(w', kroot, pages', cap) && Kept(w, pages, w', pages', Reach(w, root, Vpn(va))) &&
                Persist(w, w', pages)
            && Accounted(w', pages') == Accounted(w, pages) - (if mid.tags[t].space == kroot then {frame} else {})
  {
    hide Kept, Persist, Owned, Sound, Grows, MapOutcome;
    var v := Vpn(va);
    var spaces := Reach(w, root, v);
    var w' := LeafWorld(mid, t, v, Present(frame, flags));
    var pages' := RecordPage(pages, mid.tags, kroot, t, v, frame);
    ReadyFacts(w, pages, mid, kroot, cap, root, va, frame, t);
    PathBuilt(w, pages, mid, kroot, cap, root, va, frame, spaces);
    OwnedMap(mid, kroot, pages, cap, t, Index(v, 3), frame, flags);
    LeafKept(mid, pages, kroot, cap, t, v, frame, flags, spaces);
    KeptTrans(w, pages, mid, pages, w', pages', spaces);
    PersistTrans(w, mid, w', pages);
    assert frame in Accounted(w, pages);
  }

  lemma MappedFlat(w: World, pages: Tags, mid: World, kroot: Frame, cap: nat, root: Frame, va: nat, flags: MapFlags,
                   frame: Frame, t: Frame)
    requires PathReady(w, mid, kroot, root, va, frame, t) && Owned(w, kroot, pages, cap)
    ensures var w' := LeafWorld(mid, t, Vpn(va), Present(frame, flags));
            && Flat(w'.mem, root) == Flat(w.mem, root)[Vpn(va) := Present(frame, flags)]
            && OthersUntouched(w, w', kroot, root, Vpn(va))
  {
    var w1 := TakenWorld(w, frame);
    TakeOutcome(w, kroot, root, va, frame);
    OwnedTake(w, kroot, pages, cap, frame, ZeroPage());
    TakenFlat(w, w1, kroot, root, Vpn(va), mid, t, Present(frame, flags));
  }

  lemma TakenFlat(w: World, w1: World, kroot: Frame, root: Frame, v: nat, mid: World, t: Frame, leaf: Entry)
    requires SameWalks(w, w1) && w1.tags == w.tags && IsRoot(w.tags, root) && v < VPN_LIMIT && leaf.Present?
    requires PathSpace(w1, root, v) == PathSpace(w, root, v)
    requires Sound(mid, kroot) && Grows(w1, mid, Reach(w, root, v))
    requires t in mid.tags && IsTable(mid.mem, t) && TableOf(mid.mem, root, v, 3) == Some(t)
    requires mid.tags[t].space == PathSpace(w, root, v)
    ensures Flat(LeafWorld(mid, t, v, leaf).mem, root) == Flat(w.mem, root)[v := leaf]
    ensures OthersUntouched(w, LeafWorld(mid, t, v, leaf), kroot, root, v)
  {
    hide Sound, Grows, Walk;
    var w' := LeafWorld(mid, t, v, leaf);
    MapRefines(w1, mid, kroot, root, v, t, leaf);
    assert Flat(w1.mem, root) == Flat(w.mem, root);
    forall r, u | IsRoot(w.tags, r) && 0 <= u < VPN_LIMIT
                  && (u != v || (r != root && PathSpace(w, root, v) == root && root != kroot))
      ensures Walk(w'.mem, r, u) == Walk(w.mem, r, u)
    {
      assert Walk(w1.mem, r, u) == Walk(w.mem, r, u);
      assert Walk(w'.mem, r, u) == Walk(w1.mem, r, u);
    }
  }

  lemma MappedStep(w: World, pages: Tags, mid: World, kroot: Frame, cap: nat, root: Frame, va: nat, flags: MapFlags,
                   frame: Frame, t: Frame)
    requires PathReady(w, mid, kroot, root, va, frame, t) && Owned(w, kroot, pages, cap)
    requires var w' := LeafWorld(mid, t, Vpn(va), Present(frame, flags));
             && OtherSlotsKept(TakenWorld(w, frame), w', root, Vpn(va))
             && TablesEdited(TakenWorld(w, frame), w', root, Vpn(va))
             && |w'.free| + Missing(TakenWorld(w, frame).mem, root, Vpn(va)) == |w.free - {frame}|
    ensures var pages' := RecordPage(pages, mid.tags, kroot, t, Vpn(va), frame);
            var w' := LeafWorld(mid, t, Vpn(va), Present(frame, flags));
            && Owned(w', kroot, pages', cap)
            && FreshStep(w, pages, w', pages', kroot, root, va, flags, Mapped(frame))
  {
    hide Kept, Persist, Owned, Sound, Grows, Missing, Walk, Accounted, Flat, OthersUntouched, OtherSlotsKept,
         TablesEdited;
    TakenSlots(w, LeafWorld(mid, t, Vpn(va), Present(frame, flags)), kroot, root, va, frame);
    TakenEdited(w, LeafWorld(mid, t, Vpn(va), Present(frame, flags)), kroot, root, va, frame);
    TakeOutcome(w, kroot, root, va, frame);
    var pages' := RecordPage(pages, mid.tags, kroot, t, Vpn(va), frame);
    PathBuilt(w, pages, mid, kroot, cap, root, va, frame, Reach(w, root, Vpn(va)));
    ReadyFacts(w, pages, mid, kroot, cap, root, va, frame, t);
    MappedKept(w, pages, mid, kroot, cap, root, va, flags, frame, t);
    MappedFlat(w, pages, mid, kroot, cap, root, va, flags, frame, t);
    assert frame in pages' ==> pages' == pages[frame := pages'[frame]];
  }

  /** Allocates a frame, zeroes it and maps it at `va`: the body shared by the page-fault
      handler, the segment loader and the user-stack allocator. A frame whose mapping fails
      is neither mapped nor given back. */
  method MapZeroed(m: Machine, root: Frame, va: nat, flags: MapFlags) returns (r: FreshMap)
    requires SpacesValid(m) && IsRoot(m.tags, root)
    modifies m`mem, m`tags, m`pages, m.pmm.bitmap
    ensures SpacesValid(m)
    ensures FreshStep(old(m.W()), old(m.pages), m.W(), m.pages, m.kroot, root, va, flags, r)
    ensures r.Mapped? ==> RightsGiven(m.arch, old(m.mem), m.mem, root, Vpn(va), flags)
  {
    hide Owned, Sound, Grows, OthersUntouched, Flat, Missing, FreshStep, Walk, LeafFor, TableOf, RecordPage, MapOutcome,
         OtherSlotsKept, TablesEdited, PathEdited, RightsGiven;
    ghost var w, pages, cap := m.W(), m.pages, m.pmm.Capacity();
    var got := m.AllocFrame();
    if got.None? {
      assert m.W() == w;
      NoFrameStep(w, pages, m.kroot, cap, root, va, flags);
      return NoFrame;
    }
    var frame := got.value;
    OwnedTake(w, m.kroot, pages, cap, frame, ZeroPage());
    TakeOutcome(w, m.kroot, root, va, frame);
    m.mem := m.mem[frame := ZeroPage()];
    assert m.W() == TakenWorld(w, frame);
    var out, mid, t := m.MapPage(root, va, frame * PAGE_SIZE, flags);
    EditedAfterMap(TakenWorld(w, frame), m.W(), root, Vpn(va), out, flags.userAccessible && m.arch.X86_64?);
    if out.Err? {
      r := NotMapped(frame, out.error);
      NotMappedStep(w, pages, m.W(), m.kroot, cap, root, va, flags, frame, out.error);
    } else {
      r := Mapped(frame);
      LeafForFrame(m.arch, frame, flags);
      assert m.W() == LeafWorld(mid, t, Vpn(va), Present(frame, flags));
      GrownRoot(TakenWorld(w, frame), mid, root, Reach(w, root, Vpn(va)));
      LeafLevel(mid, m.kroot, root, Vpn(va), t);
      MappedStep(w, pages, mid, m.kroot, cap, root, va, flags, frame, t);
      TakenRights(w, m.kroot, root, Vpn(va), frame, m.arch, m.mem, flags);
      m.pages := RecordPage(m.pages, mid.tags, m.kroot, t, Vpn(va), frame);
    }
  }

  lemma EditedAfterMap(w: World, w': World, root: Frame, v: nat, r: Result, grant: bool)
    requires if r == Err(InvalidAddress) then w' == w else PathEdited(w, w', root, v, 3, grant)
    ensures TablesEdited(w, w', root, v)
  {
    hide TablesEdited, PathEdited;
    if r == Err(InvalidAddress) {
      UneditedKept(w, root, v);
    } else {
      EditedKept(w, w', root, v, grant);
    }
  }

  lemma LeafLevel(w: World, kroot: Frame, root: Frame, v: nat, t: Frame)
    requires Sound(w, kroot) && IsRoot(w.tags, root) && v < VPN_LIMIT && TableOf(w.mem, root, v, 3) == Some(t)
    ensures t in w.tags && w.tags[t].level == 3
  {
    PathTag(w.mem, kroot, w.tags, root, v, 3);
  }

  /** Overwriting a data frame changes neither trees nor ownership nor any walk. */
  lemma WriteFrame(w: World, kroot: Frame, pages: Tags, cap: nat, frame: Frame, c: Contents)
    requires Sound(w, kroot) && Owned(w, kroot, pages, cap) && frame !in w.tags
    requires c.Data? && |c.bytes| == PAGE_SIZE
    ensures var w' := w.(mem := w.mem[frame := c]);
            Sound(w', kroot) && Owned(w', kroot, pages, cap) && SameWalks(w, w')
  {
    var w' := w.(mem := w.mem[frame := c]);
    SameTablesTree(w.mem, w'.mem, kroot, w.tags);
    forall r, v | IsRoot(w.tags, r) && 0 <= v < VPN_LIMIT ensures Walk(w'.mem, r, v) == Walk(w.mem, r, v) {
      SameTablesSameWalk(w.mem, w'.mem, kroot, w.tags, r, v);
    }
    forall t, i | t in w.tags && w.tags[t].level == 3 && w.tags[t].space != kroot && 0 <= i < ENTRIES
      ensures LeafOwned(w', pages, t, i)
    {
      assert LeafOwned(w, pages, t, i);
    }
    forall d | d in pages ensures PageLinked(w', kroot, pages, d) {
      assert PageLinked(w, kroot, pages, d);
    }
  }
}
