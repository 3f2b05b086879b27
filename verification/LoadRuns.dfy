/** Runs of page loads: mapping fresh pages into one address space and filling them, as the segment
    loader and the stack allocator do, and what any such run, finished or not, does to memory. */
module LoadRuns {
  import opened PageTables
  import opened Worlds
  import opened Vmm
  import opened Spaces

  /** One page: where it goes, what became of it, the state right after the mapping, and the contents
      then copied into it. */
  datatype PageLoad = PageLoad(va: nat, flags: MapFlags, outcome: FreshMap, mid: World, pages: Tags, contents: Contents)

  ghost function After(l: PageLoad): World {
    if l.outcome.Mapped? then l.mid.(mem := l.mid.mem[l.outcome.frame := l.contents]) else l.mid
  }

  ghost predicate LoadStep(w: World, pages: Tags, l: PageLoad, kroot: Frame, cap: nat, root: Frame) {
    && FreshStep(w, pages, l.mid, l.pages, kroot, root, l.va, l.flags, l.outcome)
    && Sound(l.mid, kroot) && Owned(l.mid, kroot, l.pages, cap)
    && (l.outcome.Mapped? ==> l.contents.Data? && |l.contents.bytes| == PAGE_SIZE)
  }

  ghost function WorldAt(w: World, run: seq<PageLoad>, n: nat): World
    requires n <= |run|
  {
    if n == 0 then w else After(run[n - 1])
  }

  ghost function PagesAt(pages: Tags, run: seq<PageLoad>, n: nat): Tags
    requires n <= |run|
  {
    if n == 0 then pages else run[n - 1].pages
  }

  ghost predicate StepAt(w: World, pages: Tags, run: seq<PageLoad>, kroot: Frame, cap: nat, root: Frame, n: nat)
    requires n < |run|
  {
    LoadStep(WorldAt(w, run, n), PagesAt(pages, run, n), run[n], kroot, cap, root)
  }

  /** The page loads `run`, one after the other, lead from `w` to `w'`. */
  ghost predicate LoadRun(w: World, pages: Tags, run: seq<PageLoad>, w': World, pages': Tags, kroot: Frame, cap: nat,
                          root: Frame) {
    && w' == WorldAt(w, run, |run|) && pages' == PagesAt(pages, run, |run|)
    && (forall n :: 0 <= n < |run| ==> StepAt(w, pages, run, kroot, cap, root, n))
  }

  lemma LongerRun(w: World, pages: Tags, run: seq<PageLoad>, w': World, pages': Tags, kroot: Frame, cap: nat,
                  root: Frame, l: PageLoad)
    requires LoadRun(w, pages, run, w', pages', kroot, cap, root) && LoadStep(w', pages', l, kroot, cap, root)
    ensures LoadRun(w, pages, run + [l], After(l), l.pages, kroot, cap, root)
  {
    hide LoadStep, After;
    var run' := run + [l];
    forall n | 0 <= n < |run'| ensures StepAt(w, pages, run', kroot, cap, root, n) {
      assert n < |run| ==> StepAt(w, pages, run, kroot, cap, root, n);
    }
  }

  lemma JoinedRuns(w: World, pages: Tags, a: seq<PageLoad>, w1: World, pages1: Tags, b: seq<PageLoad>, w2: World,
                   pages2: Tags, kroot: Frame, cap: nat, root: Frame)
    requires LoadRun(w, pages, a, w1, pages1, kroot, cap, root) && LoadRun(w1, pages1, b, w2, pages2, kroot, cap, root)
    ensures LoadRun(w, pages, a + b, w2, pages2, kroot, cap, root)
  {
    hide LoadStep, After;
    var run := a + b;
    forall n | 0 <= n < |run| ensures StepAt(w, pages, run, kroot, cap, root, n) {
      if n < |a| {
        assert StepAt(w, pages, a, kroot, cap, root, n);
      } else {
        assert StepAt(w1, pages1, b, kroot, cap, root, n - |a|);
      }
    }
  }

  lemma ShorterRun(w: World, pages: Tags, run: seq<PageLoad>, w': World, pages': Tags, kroot: Frame, cap: nat,
                   root: Frame)
    requires LoadRun(w, pages, run, w', pages', kroot, cap, root) && run != []
    ensures var n := |run| - 1;
            && LoadRun(w, pages, run[..n], WorldAt(w, run, n), PagesAt(pages, run, n), kroot, cap, root)
            && LoadStep(WorldAt(w, run, n), PagesAt(pages, run, n), run[n], kroot, cap, root)
            && w' == After(run[n]) && pages' == run[n].pages
  {
    hide LoadStep, After;
    var n := |run| - 1;
    assert StepAt(w, pages, run, kroot, cap, root, n);
    forall k | 0 <= k < n ensures StepAt(w, pages, run[..n], kroot, cap, root, k) {
      assert StepAt(w, pages, run, kroot, cap, root, k);
    }
  }

  /** The pages a run is about. */
  ghost function Touched(run: seq<PageLoad>): set<nat> {
    set n | 0 <= n < |run| :: Vpn(run[n].va)
  }

  ghost predicate AllMapped(run: seq<PageLoad>) {
    forall n :: 0 <= n < |run| ==> run[n].outcome.Mapped?
  }

  /** The frames a run takes for good. */
  ghost function LostIn(w: World, run: seq<PageLoad>, kroot: Frame, root: Frame): set<Frame> {
    if run == [] then {}
    else
      var n := |run| - 1;
      LostIn(w, run[..n], kroot, root) + LostBy(WorldAt(w, run, n), kroot, root, run[n].va, run[n].outcome)
  }

  // ---------------------------------------------------------------------------
  // What a run keeps
  // ---------------------------------------------------------------------------

  /** Pages outside `added` translate as before in every address space. */
  ghost predicate Elsewhere(w: World, w': World, added: set<nat>) {
    forall r, u :: IsRoot(w.tags, r) && 0 <= u < VPN_LIMIT && u !in added ==> Walk(w'.mem, r, u) == Walk(w.mem, r, u)
  }

  /** Every address space but `root` translates as before. */
  ghost predicate Separate(w: World, w': World, root: Frame) {
    forall r, u :: IsRoot(w.tags, r) && r != root && 0 <= u < VPN_LIMIT ==> Walk(w'.mem, r, u) == Walk(w.mem, r, u)
  }

  /** Tables and links stay. */
  ghost predicate Standing(w: World, w': World) {
    (forall f :: f in w.tags ==> f in w'.tags && w'.tags[f] == w.tags[f]) && LinksKept(w, w')
  }

  ghost predicate EmptyInKernel(w: World, kroot: Frame, v: nat) {
    At(w.mem, kroot, Index(v, 0)).Absent?
  }

  /** The kernel's root leaves the slots of all these pages empty. */
  ghost predicate PrivatePages(w: World, kroot: Frame, vs: set<nat>) {
    IsRoot(w.tags, kroot) && forall v :: v in vs ==> EmptyInKernel(w, kroot, v)
  }

  /** What a run of page loads does to memory, whether or not its last page could be mapped: no other
      page changes, spaces other than `root` and the kernel's are the same frames with the same
      contents, and every frame is accounted for but the lost ones. On pages whose slots the kernel's
      root leaves empty, no other space changes, and a frame is lost only by a mapping that fails. */
  ghost predicate Charged(w: World, pages: Tags, run: seq<PageLoad>, w': World, pages': Tags, kroot: Frame,
                          root: Frame) {
    var lost := LostIn(w, run, kroot, root);
    && Elsewhere(w, w', Touched(run)) && Standing(w, w') && Kept(w, pages, w', pages', {root, kroot})
    && pages.Keys <= pages'.Keys
    && Accounted(w', pages') == Accounted(w, pages) - lost && lost <= w.free
    && (PrivatePages(w, kroot, Touched(run)) && root != kroot ==>
          Kept(w, pages, w', pages', {root}) && Separate(w, w', root) && (AllMapped(run) ==> lost == {}))
  }

  lemma StandingTrans(w: World, w1: World, w2: World)
    requires Standing(w, w1) && Standing(w1, w2)
    ensures Standing(w, w2)
  {
    forall f, i | f in w.tags && w.tags[f].level < 3 ensures KeepsLink(At(w.mem, f, i), At(w2.mem, f, i)) {
      assert KeepsLink(At(w.mem, f, i), At(w1.mem, f, i)) && KeepsLink(At(w1.mem, f, i), At(w2.mem, f, i));
    }
  }

  lemma ElsewhereTrans(w: World, w1: World, w2: World, a: set<nat>, b: set<nat>)
    requires Elsewhere(w, w1, a) && Elsewhere(w1, w2, b) && Standing(w, w1)
    ensures Elsewhere(w, w2, a + b)
  {
    hide Walk, LinksKept;
    forall r, u | IsRoot(w.tags, r) && 0 <= u < VPN_LIMIT && u !in a + b
        ensures Walk(w2.mem, r, u) == Walk(w.mem, r, u) {
      assert IsRoot(w1.tags, r) && Walk(w1.mem, r, u) == Walk(w.mem, r, u);
    }
  }

  lemma SeparateTrans(w: World, w1: World, w2: World, root: Frame)
    requires Separate(w, w1, root) && Separate(w1, w2, root) && Standing(w, w1)
    ensures Separate(w, w2, root)
  {
    hide Walk, LinksKept;
    forall r, u | IsRoot(w.tags, r) && r != root && 0 <= u < VPN_LIMIT ensures Walk(w2.mem, r, u) == Walk(w.mem, r, u) {
      assert IsRoot(w1.tags, r) && Walk(w1.mem, r, u) == Walk(w.mem, r, u);
    }
  }

  /** A slot the kernel root leaves empty is private in every process. */
  lemma PrivatePath(w: World, kroot: Frame, root: Frame, v: nat)
    requires Sound(w, kroot) && IsRoot(w.tags, kroot) && IsRoot(w.tags, root) && root != kroot
    requires EmptyInKernel(w, kroot, v)
    ensures PathSpace(w, root, v) == root
  {
    var i := Index(v, 0);
    assert ForwardAt(w.mem, kroot, w.tags, root, i);
    if At(w.mem, root, i).Present? {
      assert BackwardAt(w.mem, w.tags, At(w.mem, root, i).frame);
    }
  }

  lemma ReachBounds(w: World, kroot: Frame, root: Frame, v: nat)
    requires Sound(w, kroot) && IsRoot(w.tags, root)
    ensures Reach(w, root, v) <= {root, kroot}
  {
    assert ForwardAt(w.mem, kroot, w.tags, root, Index(v, 0));
  }

  lemma WiderKept(w: World, pages: Tags, w': World, pages': Tags, a: set<Frame>, b: set<Frame>)
    requires Kept(w, pages, w', pages', a) && a <= b
    ensures Kept(w, pages, w', pages', b)
  {
  }

  /** Copying into the new page disturbs nothing. */
  lemma CopyIntoFresh(w: World, pages: Tags, w': World, pages': Tags, spaces: set<Frame>, frame: Frame, c: Contents)
    requires Kept(w, pages, w', pages', spaces) && Standing(w, w') && frame !in w'.tags && frame !in pages
    requires frame in pages' ==> pages'[frame].space in spaces
    ensures var w2 := w'.(mem := w'.mem[frame := c]);
            Kept(w, pages, w2, pages', spaces) && Standing(w, w2) && Accounted(w2, pages') == Accounted(w', pages')
  {
    var w2 := w'.(mem := w'.mem[frame := c]);
    forall f, i | f in w.tags && w.tags[f].level < 3 ensures KeepsLink(At(w.mem, f, i), At(w2.mem, f, i)) {
      assert KeepsLink(At(w.mem, f, i), At(w'.mem, f, i));
    }
  }

  lemma StepWalks(w: World, pages: Tags, l: PageLoad, kroot: Frame, cap: nat, root: Frame)
    requires LoadStep(w, pages, l, kroot, cap, root)
    ensures Sound(After(l), kroot) && Owned(After(l), kroot, l.pages, cap)
    ensures Elsewhere(w, After(l), {Vpn(l.va)})
    ensures PathSpace(w, root, Vpn(l.va)) == root && root != kroot ==> Separate(w, After(l), root)
  {
    hide Sound, Owned, Walk, Kept, Flat, Accounted, Vpn, OtherSlotsKept, PathSpace, MapOutcome, LinksKept;
    if l.outcome.Mapped? {
      WriteFrame(l.mid, kroot, l.pages, cap, l.outcome.frame, l.contents);
    }
    forall q, u | IsRoot(w.tags, q) && 0 <= u < VPN_LIMIT
      ensures IsRoot(l.mid.tags, q) && Walk(After(l).mem, q, u) == Walk(l.mid.mem, q, u)
    {
    }
  }

  lemma StepRecords(w: World, pages: Tags, l: PageLoad, kroot: Frame, cap: nat, root: Frame)
    requires Sound(w, kroot) && IsRoot(w.tags, root) && LoadStep(w, pages, l, kroot, cap, root)
    ensures Standing(w, After(l)) && Kept(w, pages, After(l), l.pages, Reach(w, root, Vpn(l.va)))
    ensures Accounted(After(l), l.pages) == Accounted(w, pages) - LostBy(w, kroot, root, l.va, l.outcome)
    ensures pages.Keys <= l.pages.Keys && LostBy(w, kroot, root, l.va, l.outcome) <= w.free
  {
    hide Sound, Owned, Walk, Kept, Flat, Accounted, Vpn, OtherSlotsKept, MapOutcome, LinksKept, OthersUntouched,
         PathSpace, SameWalks;
    assert Standing(w, l.mid);
    if l.outcome.Mapped? {
      CopyIntoFresh(w, pages, l.mid, l.pages, Reach(w, root, Vpn(l.va)), l.outcome.frame, l.contents);
    }
  }

  lemma FreeShrinks(w: World, pages: Tags, w': World, pages': Tags, kroot: Frame, cap: nat, lost: set<Frame>)
    requires Standing(w, w') && pages.Keys <= pages'.Keys && Sound(w', kroot) && Owned(w', kroot, pages', cap)
    requires Accounted(w', pages') == Accounted(w, pages) - lost
    ensures w'.free <= w.free
  {
    hide LinksKept, Tree;
    forall f | f in w'.free ensures f in w.free {
      assert f in Accounted(w', pages');
    }
  }

  lemma TouchedMore(run: seq<PageLoad>, l: PageLoad)
    ensures Touched(run + [l]) == Touched(run) + {Vpn(l.va)}
  {
    hide Vpn;
    var run' := run + [l];
    forall v ensures v in Touched(run') <==> v in Touched(run) + {Vpn(l.va)} {
      if v in Touched(run) {
        var n :| 0 <= n < |run| && Vpn(run[n].va) == v;
        assert run'[n] == run[n];
      }
      assert run'[|run|] == l;
    }
  }

  lemma TouchedJoin(a: seq<PageLoad>, b: seq<PageLoad>)
    ensures Touched(a + b) == Touched(a) + Touched(b)
  {
    hide Vpn;
    var run := a + b;
    forall v ensures v in Touched(run) <==> v in Touched(a) + Touched(b) {
      if v in Touched(a) {
        var n :| 0 <= n < |a| && Vpn(a[n].va) == v;
        assert run[n] == a[n];
      }
      if v in Touched(b) {
        var n :| 0 <= n < |b| && Vpn(b[n].va) == v;
        assert run[|a| + n] == b[n];
      }
    }
  }

  lemma EmptyRun(w: World, pages: Tags, w': World, pages': Tags, kroot: Frame, cap: nat, root: Frame)
    requires Sound(w, kroot) && Owned(w, kroot, pages, cap) && LoadRun(w, pages, [], w', pages', kroot, cap, root)
    ensures w' == w && pages' == pages && Charged(w, pages, [], w, pages, kroot, root)
  {
    hide Walk;
    assert Touched([]) == {} && LostIn(w, [], kroot, root) == {};
  }

  lemma ChargedMore(w: World, pages: Tags, run: seq<PageLoad>, w1: World, pages1: Tags, l: PageLoad, kroot: Frame,
                    cap: nat, root: Frame)
    requires Sound(w1, kroot) && Owned(w1, kroot, pages1, cap) && IsRoot(w1.tags, root)
    requires w1 == WorldAt(w, run, |run|) && LoadStep(w1, pages1, l, kroot, cap, root)
    requires Charged(w, pages, run, w1, pages1, kroot, root)
    ensures IsRoot(After(l).tags, root) && Sound(After(l), kroot) && Owned(After(l), kroot, l.pages, cap)
    ensures Charged(w, pages, run + [l], After(l), l.pages, kroot, root)
  {
    hide Sound, Owned, LoadStep, Kept, Elsewhere, Separate, LinksKept, Accounted, After, Touched, PrivatePages, Reach,
         PathSpace, LostBy, Vpn;
    var v := Vpn(l.va);
    StepWalks(w1, pages1, l, kroot, cap, root);
    StepRecords(w1, pages1, l, kroot, cap, root);
    FreeShrinks(w, pages, w1, pages1, kroot, cap, LostIn(w, run, kroot, root));
    StandingTrans(w, w1, After(l));
    ElsewhereTrans(w, w1, After(l), Touched(run), {v});
    TouchedMore(run, l);
    ReachBounds(w1, kroot, root, v);
    WiderKept(w1, pages1, After(l), l.pages, Reach(w1, root, v), {root, kroot});
    KeptTrans(w, pages, w1, pages1, After(l), l.pages, {root, kroot});
    LostMore(w, run, l, kroot, root);
    var run' := run + [l];
    if PrivatePages(w, kroot, Touched(run')) && root != kroot {
      StillPrivate(w, pages, w1, pages1, kroot, root, Touched(run), v);
      StepPrivate(w1, pages1, l, kroot, cap, root);
      KeptTrans(w, pages, w1, pages1, After(l), l.pages, {root});
      SeparateTrans(w, w1, After(l), root);
      if AllMapped(run') {
        assert run'[|run|] == l && forall n :: 0 <= n < |run| ==> run'[n] == run[n];
      }
    }
  }

  lemma LostMore(w: World, run: seq<PageLoad>, l: PageLoad, kroot: Frame, root: Frame)
    ensures LostIn(w, run + [l], kroot, root) ==
            LostIn(w, run, kroot, root) + LostBy(WorldAt(w, run, |run|), kroot, root, l.va, l.outcome)
  {
    assert (run + [l])[..|run|] == run;
  }

  lemma StillPrivate(w: World, pages: Tags, w1: World, pages1: Tags, kroot: Frame, root: Frame, vs: set<nat>, v: nat)
    requires PrivatePages(w, kroot, vs + {v}) && root != kroot
    ensures PrivatePages(w, kroot, vs)
    ensures Kept(w, pages, w1, pages1, {root}) ==> IsRoot(w1.tags, kroot) && EmptyInKernel(w1, kroot, v)
  {
    assert v in vs + {v};
    assert w.tags[kroot].space !in {root};
  }

  lemma StepPrivate(w: World, pages: Tags, l: PageLoad, kroot: Frame, cap: nat, root: Frame)
    requires Sound(w, kroot) && IsRoot(w.tags, root) && LoadStep(w, pages, l, kroot, cap, root) && root != kroot
    requires IsRoot(w.tags, kroot) && EmptyInKernel(w, kroot, Vpn(l.va))
    ensures Kept(w, pages, After(l), l.pages, {root}) && PathSpace(w, root, Vpn(l.va)) == root
    ensures Separate(w, After(l), root)
    ensures l.outcome.Mapped? ==> LostBy(w, kroot, root, l.va, l.outcome) == {}
  {
    hide Sound, LoadStep, Kept, After, Separate, PathSpace;
    PrivatePath(w, kroot, root, Vpn(l.va));
    StepRecords(w, pages, l, kroot, cap, root);
    StepWalks(w, pages, l, kroot, cap, root);
    assert Reach(w, root, Vpn(l.va)) == {root};
  }

  /** Every run of page loads, finished or not, is accounted for. */
  lemma {:induction false} RunCharged(w: World, pages: Tags, run: seq<PageLoad>, w': World, pages': Tags, kroot: Frame,
                                      cap: nat, root: Frame)
    requires Sound(w, kroot) && Owned(w, kroot, pages, cap) && IsRoot(w.tags, root)
    requires LoadRun(w, pages, run, w', pages', kroot, cap, root)
    ensures Sound(w', kroot) && Owned(w', kroot, pages', cap) && IsRoot(w'.tags, root)
    ensures Charged(w, pages, run, w', pages', kroot, root)
    decreases |run|
  {
    hide Sound, Owned, LoadRun, LoadStep, Charged;
    if run == [] {
      EmptyRun(w, pages, w', pages', kroot, cap, root);
    } else {
      var n := |run| - 1;
      ShorterRun(w, pages, run, w', pages', kroot, cap, root);
      var w1, pages1 := WorldAt(w, run, n), PagesAt(pages, run, n);
      RunCharged(w, pages, run[..n], w1, pages1, kroot, cap, root);
      assert run == run[..n] + [run[n]];
      ChargedMore(w, pages, run[..n], w1, pages1, run[n], kroot, cap, root);
    }
  }

  /** Without a free frame a run maps nothing and changes nothing. */
  lemma {:induction false} EmptyPool(w: World, pages: Tags, run: seq<PageLoad>, w': World, pages': Tags, kroot: Frame,
                                     cap: nat, root: Frame)
    requires LoadRun(w, pages, run, w', pages', kroot, cap, root) && w.free == {}
    ensures w' == w && pages' == pages && (run != [] ==> !AllMapped(run))
    decreases |run|
  {
    hide LoadRun, LoadStep;
    if run == [] {
      RunOfNone(w, pages, w', pages', kroot, cap, root);
    } else {
      var n := |run| - 1;
      ShorterRun(w, pages, run, w', pages', kroot, cap, root);
      EmptyPool(w, pages, run[..n], WorldAt(w, run, n), PagesAt(pages, run, n), kroot, cap, root);
      NoFrameLoad(w, pages, run[n], kroot, cap, root);
    }
  }

  lemma RunOfNone(w: World, pages: Tags, w': World, pages': Tags, kroot: Frame, cap: nat, root: Frame)
    requires LoadRun(w, pages, [], w', pages', kroot, cap, root)
    ensures w' == w && pages' == pages
  {
  }

  lemma NoFrameLoad(w: World, pages: Tags, l: PageLoad, kroot: Frame, cap: nat, root: Frame)
    requires LoadStep(w, pages, l, kroot, cap, root) && w.free == {}
    ensures !l.outcome.Mapped? && After(l) == w && l.pages == pages
  {
    hide Kept, Persist, OthersUntouched, OtherSlotsKept, Accounted, MapOutcome, PageAdded, Sound, Owned;
  }

  // ---------------------------------------------------------------------------
  // When a run succeeds
  // ---------------------------------------------------------------------------

  /** The tables that the paths to the pages `vs` lack, by level and prefix. */
  ghost function MissingTables(mem: Memory, root: Frame, vs: set<nat>): set<(nat, nat)> {
    set v, level | v in vs && 1 <= level <= 3 && TableOf(mem, root, v, level).None? :: (level, Prefix(v, level))
  }

  /** The frames it takes to map the pages `vs`: one for each page and for each table they lack. */
  ghost function Need(mem: Memory, root: Frame, vs: set<nat>): nat {
    |vs| + |MissingTables(mem, root, vs)|
  }

  lemma IsMissing(mem: Memory, root: Frame, vs: set<nat>, v: nat, level: nat)
    requires v in vs && 1 <= level <= 3 && TableOf(mem, root, v, level).None?
    ensures (level, Prefix(v, level)) in MissingTables(mem, root, vs)
  {
  }

  lemma MissingFor(mem: Memory, root: Frame, vs: set<nat>, x: (nat, nat)) returns (v: nat)
    requires x in MissingTables(mem, root, vs)
    ensures v in vs && 1 <= x.0 <= 3 && TableOf(mem, root, v, x.0).None? && x.1 == Prefix(v, x.0)
  {
    var u, level :| u in vs && 1 <= level <= 3 && TableOf(mem, root, u, level).None? && x == (level, Prefix(u, level));
    v := u;
  }

  /** One page lacks as many tables as its path is short of. */
  lemma MissingOne(mem: Memory, root: Frame, v: nat)
    ensures |MissingTables(mem, root, {v})| == Missing(mem, root, v)
  {
    hide Prefix;
    var all := MissingTables(mem, root, {v});
    var a, b, c := (1, Prefix(v, 1)), (2, Prefix(v, 2)), (3, Prefix(v, 3));
    assert TableOf(mem, root, v, 1).None? ==> TableOf(mem, root, v, 2).None?;
    assert TableOf(mem, root, v, 2).None? ==> TableOf(mem, root, v, 3).None?;
    var want := if TableOf(mem, root, v, 1).None? then {a, b, c} else if TableOf(mem, root, v, 2).None? then {b, c}
                else if TableOf(mem, root, v, 3).None? then {c} else {};
    forall x ensures x in all <==> x in want {
      if x in all {
        var u := MissingFor(mem, root, {v}, x);
      }
      if x in want {
        IsMissing(mem, root, {v}, v, x.0);
      }
    }
    assert all == want;
  }

  /** Pages with the same prefix share their tables down to that level. */
  lemma {:induction false} SamePrefixPath(mem: Memory, root: Frame, u: nat, v: nat, level: nat)
    requires level <= 3 && Prefix(u, level) == Prefix(v, level) && Prefix(u, 0) == Prefix(v, 0)
    ensures TableOf(mem, root, u, level) == TableOf(mem, root, v, level)
  {
    if level > 0 {
      SplitSame(u, v, level - 1);
      SamePrefixPath(mem, root, u, v, level - 1);
    }
  }

  lemma SplitSame(u: nat, v: nat, level: nat)
    requires level < 3 && Prefix(u, level + 1) == Prefix(v, level + 1)
    ensures Prefix(u, level) == Prefix(v, level) && Index(u, level) == Index(v, level)
  {
  }

  /** Once page `v` is mapped, the others lack the tables they lacked but those of its path. */
  lemma MissingAfter(w: World, w': World, kroot: Frame, root: Frame, v: nat, vs: set<nat>)
    requires Sound(w, kroot) && Sound(w', kroot) && IsRoot(w.tags, root) && v < VPN_LIMIT && v !in vs
    requires forall u :: u in vs ==> u < VPN_LIMIT
    requires TablesEdited(w, w', root, v) && forall f :: f in w.tags ==> f in w'.tags && w'.tags[f] == w.tags[f]
    requires TableOf(w'.mem, root, v, 3).Some?
    ensures Need(w.mem, root, vs + {v}) == Need(w'.mem, root, vs) + 1 + Missing(w.mem, root, v)
  {
    hide Prefix, TableOf, Sound, TablesEdited, MissingTables, Missing;
    var before, after, own := MissingTables(w.mem, root, vs + {v}), MissingTables(w'.mem, root, vs),
        MissingTables(w.mem, root, {v});
    forall x | x in before ensures x in after || x in own {
      var u := MissingFor(w.mem, root, vs + {v}, x);
      MissingBefore(w, w', kroot, root, v, vs, u, x.0);
    }
    forall x | x in after ensures x in before && x !in own {
      var u := MissingFor(w'.mem, root, vs, x);
      MissingStill(w, w', kroot, root, v, vs, u, x.0);
    }
    forall x | x in own ensures x in before {
      var u := MissingFor(w.mem, root, {v}, x);
      IsMissing(w.mem, root, vs + {v}, v, x.0);
    }
    assert before == after + own && after !! own;
    MissingOne(w.mem, root, v);
    assert |vs + {v}| == |vs| + 1;
  }

  lemma MissingBefore(w: World, w': World, kroot: Frame, root: Frame, v: nat, vs: set<nat>, u: nat, level: nat)
    requires Sound(w, kroot) && Sound(w', kroot) && IsRoot(w.tags, root) && v < VPN_LIMIT && u < VPN_LIMIT
    requires TablesEdited(w, w', root, v) && forall f :: f in w.tags ==> f in w'.tags && w'.tags[f] == w.tags[f]
    requires u in vs + {v} && 1 <= level <= 3 && TableOf(w.mem, root, u, level).None?
    ensures (level, Prefix(u, level)) in MissingTables(w'.mem, root, vs) ||
            (level, Prefix(u, level)) in MissingTables(w.mem, root, {v})
  {
    hide Prefix, TableOf, Sound, TablesEdited, MissingTables;
    PathAfter(w, w', kroot, root, v, u, level);
    if Prefix(u, level) == Prefix(v, level) {
      RootPrefixes(u, v);
      SamePrefixPath(w.mem, root, u, v, level);
      IsMissing(w.mem, root, {v}, v, level);
    } else {
      IsMissing(w'.mem, root, vs, u, level);
    }
  }

  lemma RootPrefixes(u: nat, v: nat)
    requires u < VPN_LIMIT && v < VPN_LIMIT
    ensures Prefix(u, 0) == Prefix(v, 0)
  {
    PrefixRoot(u);
    PrefixRoot(v);
  }

  lemma MissingStill(w: World, w': World, kroot: Frame, root: Frame, v: nat, vs: set<nat>, u: nat, level: nat)
    requires Sound(w, kroot) && Sound(w', kroot) && IsRoot(w.tags, root) && v < VPN_LIMIT && u < VPN_LIMIT
    requires TablesEdited(w, w', root, v) && forall f :: f in w.tags ==> f in w'.tags && w'.tags[f] == w.tags[f]
    requires TableOf(w'.mem, root, v, 3).Some?
    requires u in vs && 1 <= level <= 3 && TableOf(w'.mem, root, u, level).None?
    ensures (level, Prefix(u, level)) in MissingTables(w.mem, root, vs + {v})
    ensures (level, Prefix(u, level)) !in MissingTables(w.mem, root, {v})
  {
    hide Prefix, TableOf, Sound, TablesEdited, MissingTables;
    PathAfter(w, w', kroot, root, v, u, level);
    IsMissing(w.mem, root, vs + {v}, u, level);
    if (level, Prefix(u, level)) in MissingTables(w.mem, root, {v}) {
      var x := MissingFor(w.mem, root, {v}, (level, Prefix(u, level)));
      RootPrefixes(u, v);
      SamePrefixPath(w'.mem, root, u, v, level);
      ReachedBefore(w'.mem, root, v, level, 3);
    }
  }

  /** The addresses a run is about, in order. */
  ghost function Vas(run: seq<PageLoad>): (vas: seq<nat>)
    ensures |vas| == |run| && forall n :: 0 <= n < |run| ==> vas[n] == run[n].va
  {
    seq(|run|, n requires 0 <= n < |run| => run[n].va)
  }

  /** The run loads pages as planned, and stops early only where a page cannot be mapped. */
  ghost predicate Follows(run: seq<PageLoad>, plan: seq<nat>) {
    && Vas(run) <= plan
    && (forall n :: 0 <= n < |run| - 1 ==> run[n].outcome.Mapped?)
    && (|run| < |plan| ==> run != [] && !run[|run| - 1].outcome.Mapped?)
  }

  ghost function PlanPages(plan: seq<nat>): set<nat> {
    set n | 0 <= n < |plan| :: Vpn(plan[n])
  }

  /** No page is planned twice. */
  ghost predicate Distinct(plan: seq<nat>) {
    forall i, j :: 0 <= i < j < |plan| ==> Vpn(plan[i]) != Vpn(plan[j])
  }

  ghost predicate Vacant(mem: Memory, root: Frame, plan: seq<nat>) {
    forall n :: 0 <= n < |plan| ==> Walk(mem, root, Vpn(plan[n])).Absent?
  }

  ghost predicate PageAligned(plan: seq<nat>) {
    forall n :: 0 <= n < |plan| ==> plan[n] % PAGE_SIZE == 0
  }

  /** The planned pages are different, not mapped yet, and there are frames for them and their tables. */
  ghost predicate Fits(w: World, root: Frame, plan: seq<nat>) {
    && PageAligned(plan) && Distinct(plan) && Vacant(w.mem, root, plan)
    && Need(w.mem, root, PlanPages(plan)) <= |w.free|
  }

  /** One page can be loaded exactly when it is aligned, not mapped and affordable. */
  lemma LoadedIff(w: World, pages: Tags, l: PageLoad, kroot: Frame, cap: nat, root: Frame)
    requires LoadStep(w, pages, l, kroot, cap, root)
    ensures l.outcome.Mapped? <==>
            && l.va % PAGE_SIZE == 0 && Walk(w.mem, root, Vpn(l.va)).Absent?
            && 1 + Missing(w.mem, root, Vpn(l.va)) <= |w.free|
  {
    hide Kept, Persist, OthersUntouched, OtherSlotsKept, Accounted, PageAdded, Sound, Owned, SameWalks, Missing, Walk,
         TablesEdited, Vpn;
    assert l.outcome.NoFrame? <==> w.free == {};
    if !l.outcome.NoFrame? {
      assert |w.free - {l.outcome.frame}| == |w.free| - 1;
    }
  }

  lemma FirstPlanned(w: World, root: Frame, plan: seq<nat>)
    requires plan != [] && Fits(w, root, plan)
    ensures plan[0] % PAGE_SIZE == 0 && Walk(w.mem, root, Vpn(plan[0])).Absent?
    ensures 1 + Missing(w.mem, root, Vpn(plan[0])) <= |w.free|
  {
    hide Walk, Missing, MissingTables;
    var v, vs := Vpn(plan[0]), PlanPages(plan);
    assert v in vs;
    MissingOne(w.mem, root, v);
    MissingGrows(w.mem, root, {v}, vs);
    SubsetSize({v}, vs);
  }

  lemma MissingGrows(mem: Memory, root: Frame, a: set<nat>, b: set<nat>)
    requires a <= b
    ensures |MissingTables(mem, root, a)| <= |MissingTables(mem, root, b)|
  {
    forall x | x in MissingTables(mem, root, a) ensures x in MissingTables(mem, root, b) {
      var v := MissingFor(mem, root, a, x);
      IsMissing(mem, root, b, v, x.0);
    }
    SubsetSize(MissingTables(mem, root, a), MissingTables(mem, root, b));
  }

  lemma SubsetSize<T>(a: set<T>, b: set<T>)
    requires a <= b
    ensures |a| <= |b|
  {
    assert b == a + (b - a) && a !! (b - a);
  }

  /** The rest of a run after its first page. */
  lemma TailRun(w: World, pages: Tags, run: seq<PageLoad>, w': World, pages': Tags, kroot: Frame, cap: nat, root: Frame)
    requires LoadRun(w, pages, run, w', pages', kroot, cap, root) && run != []
    ensures LoadStep(w, pages, run[0], kroot, cap, root)
    ensures LoadRun(After(run[0]), run[0].pages, run[1..], w', pages', kroot, cap, root)
  {
    hide LoadStep, After;
    assert StepAt(w, pages, run, kroot, cap, root, 0);
    forall n | 0 <= n < |run[1..]| ensures StepAt(After(run[0]), run[0].pages, run[1..], kroot, cap, root, n) {
      assert StepAt(w, pages, run, kroot, cap, root, n + 1);
    }
  }

  /** The state after a page was loaded, as far as the next pages care. */
  lemma LoadedState(w: World, pages: Tags, l: PageLoad, kroot: Frame, cap: nat, root: Frame)
    requires Sound(w, kroot) && IsRoot(w.tags, root) && LoadStep(w, pages, l, kroot, cap, root) && l.outcome.Mapped?
    ensures var w', v := After(l), Vpn(l.va);
            && Sound(w', kroot) && Owned(w', kroot, l.pages, cap) && IsRoot(w'.tags, root)
            && TablesEdited(w, w', root, v) && (forall f :: f in w.tags ==> f in w'.tags && w'.tags[f] == w.tags[f])
            && TableOf(w'.mem, root, v, 3).Some? && |w'.free| + 1 + Missing(w.mem, root, v) == |w.free|
            && (forall u :: 0 <= u < VPN_LIMIT ==> (Walk(w'.mem, root, u).Present? <==>
                                                    u == v || Walk(w.mem, root, u).Present?))
  {
    hide Sound, Owned, Kept, OthersUntouched, OtherSlotsKept, Accounted, Missing, Vpn, MapOutcome, TablesEdited,
         LinksKept, TableOf, Flat, Walk;
    var v := Vpn(l.va);
    StepRecords(w, pages, l, kroot, cap, root);
    WriteFrame(l.mid, kroot, l.pages, cap, l.outcome.frame, l.contents);
    CopyEdited(w, l.mid, kroot, root, v, l.outcome.frame, l.contents);
    FlatAdds(w.mem, l.mid.mem, root, v, Present(l.outcome.frame, l.flags));
    forall u | 0 <= u < VPN_LIMIT
      ensures Walk(After(l).mem, root, u).Present? <==> u == v || Walk(w.mem, root, u).Present?
    {
      assert Walk(After(l).mem, root, u) == Walk(l.mid.mem, root, u);
    }
    LeafReached(After(l).mem, root, v);
  }

  lemma FlatAdds(mem: Memory, mem': Memory, root: Frame, v: nat, e: Entry)
    requires v < VPN_LIMIT && e.Present? && Flat(mem', root) == Flat(mem, root)[v := e]
    ensures forall u :: 0 <= u < VPN_LIMIT ==> (Walk(mem', root, u).Present? <==> u == v || Walk(mem, root, u).Present?)
  {
    hide Walk;
    forall u | 0 <= u < VPN_LIMIT ensures Walk(mem', root, u).Present? <==> u == v || Walk(mem, root, u).Present? {
      assert u in Flat(mem', root) <==> u in Flat(mem, root)[v := e];
    }
  }

  lemma LeafReached(mem: Memory, root: Frame, v: nat)
    ensures Walk(mem, root, v).Present? ==> TableOf(mem, root, v, 3).Some?
  {
  }

  lemma CopyEdited(w: World, w': World, kroot: Frame, root: Frame, v: nat, frame: Frame, c: Contents)
    requires TablesEdited(w, w', root, v) && Sound(w', kroot) && IsRoot(w'.tags, root) && v < VPN_LIMIT
    requires frame !in w'.tags
    ensures TablesEdited(w, w'.(mem := w'.mem[frame := c]), root, v)
  {
    hide Index, TableOf, EntryKept, NewLink;
    var w2 := w'.(mem := w'.mem[frame := c]);
    assert SameLinks(w'.mem, w2.mem, w'.tags);
    forall k | 0 <= k <= 3 ensures TableOf(w2.mem, root, v, k) == TableOf(w'.mem, root, v, k) {
      SameLinksSamePath(w'.mem, w2.mem, kroot, w'.tags, root, v, k);
    }
    forall f, i | f in w2.tags && w2.tags[f].level < 3 && 0 <= i < ENTRIES ensures KeptAt(w, w2, root, v, f, i) {
      assert KeptAt(w, w', root, v, f, i);
      assert At(w2.mem, f, i) == At(w'.mem, f, i);
    }
  }

  /** After the first page of a plan is loaded, the rest fits exactly when the whole did before. */
  lemma FitsRest(w: World, pages: Tags, l: PageLoad, kroot: Frame, cap: nat, root: Frame, plan: seq<nat>)
    requires Sound(w, kroot) && IsRoot(w.tags, root) && LoadStep(w, pages, l, kroot, cap, root) && l.outcome.Mapped?
    requires plan != [] && plan[0] == l.va && l.va % PAGE_SIZE == 0 && Walk(w.mem, root, Vpn(l.va)).Absent?
    ensures Fits(w, root, plan) <==> Fits(After(l), root, plan[1..])
  {
    hide Sound, Owned, LoadStep, Walk, Missing, MissingTables, Need, TablesEdited, TableOf, After, Vpn;
    var w', v, rest := After(l), Vpn(l.va), plan[1..];
    LoadedState(w, pages, l, kroot, cap, root);
    PlanSplit(plan);
    VacantRest(w.mem, w'.mem, root, plan);
    DistinctRest(plan);
    if Distinct(plan) {
      MissingAfter(w, w', kroot, root, v, PlanPages(rest));
    }
  }

  lemma PlanSplit(plan: seq<nat>)
    requires plan != []
    ensures PlanPages(plan) == PlanPages(plan[1..]) + {Vpn(plan[0])}
    ensures forall v :: v in PlanPages(plan) ==> v < VPN_LIMIT
    ensures PageAligned(plan) <==> plan[0] % PAGE_SIZE == 0 && PageAligned(plan[1..])
  {
    hide Vpn;
    var rest := plan[1..];
    forall v ensures v in PlanPages(plan) <==> v in PlanPages(rest) + {Vpn(plan[0])} {
      if v in PlanPages(plan) {
        var n :| 0 <= n < |plan| && Vpn(plan[n]) == v;
        assert n > 0 ==> rest[n - 1] == plan[n];
      }
      if v in PlanPages(rest) {
        var n :| 0 <= n < |rest| && Vpn(rest[n]) == v;
        assert plan[n + 1] == rest[n];
      }
    }
    if PageAligned(rest) && plan[0] % PAGE_SIZE == 0 {
      forall n | 0 <= n < |plan| ensures plan[n] % PAGE_SIZE == 0 {
        assert n > 0 ==> rest[n - 1] == plan[n];
      }
    }
  }

  lemma DistinctRest(plan: seq<nat>)
    requires plan != []
    ensures Distinct(plan) <==> Distinct(plan[1..]) && Vpn(plan[0]) !in PlanPages(plan[1..])
  {
    hide Vpn;
    var rest := plan[1..];
    if Distinct(rest) && Vpn(plan[0]) !in PlanPages(rest) {
      forall i, j | 0 <= i < j < |plan| ensures Vpn(plan[i]) != Vpn(plan[j]) {
        assert plan[j] == rest[j - 1];
        assert i > 0 ==> plan[i] == rest[i - 1];
      }
    }
  }

  lemma VacantRest(mem: Memory, mem': Memory, root: Frame, plan: seq<nat>)
    requires plan != [] && Walk(mem, root, Vpn(plan[0])).Absent?
    requires forall u :: 0 <= u < VPN_LIMIT ==>
             (Walk(mem', root, u).Present? <==> u == Vpn(plan[0]) || Walk(mem, root, u).Present?)
    ensures Vacant(mem', root, plan[1..]) <==> Vacant(mem, root, plan) && Vpn(plan[0]) !in PlanPages(plan[1..])
  {
    hide Walk, Vpn;
    var rest := plan[1..];
    if Vacant(mem', root, rest) {
      forall n | 0 <= n < |plan| ensures Walk(mem, root, Vpn(plan[n])).Absent? {
        assert n > 0 ==> rest[n - 1] == plan[n];
      }
    }
    if Vacant(mem, root, plan) && Vpn(plan[0]) !in PlanPages(rest) {
      forall n | 0 <= n < |rest| ensures Walk(mem', root, Vpn(rest[n])).Absent? {
        assert rest[n] == plan[n + 1];
      }
    }
  }

  /** A run that follows a plan maps all of it exactly when the plan fits: its pages are different, not
      mapped yet, and there is a frame for each of them and for each table they lack. */
  lemma {:induction false} RunSucceedsIff(w: World, pages: Tags, run: seq<PageLoad>, w': World, pages': Tags,
                                          kroot: Frame, cap: nat, root: Frame, plan: seq<nat>)
    requires Sound(w, kroot) && IsRoot(w.tags, root) && LoadRun(w, pages, run, w', pages', kroot, cap, root)
    requires Follows(run, plan)
    ensures AllMapped(run) <==> Fits(w, root, plan)
    ensures AllMapped(run) ==> |run| == |plan|
    decreases |run|
  {
    hide Sound, LoadRun, LoadStep, Missing, Walk, After, Need, MissingTables, Vpn, Fits, Owned;
    if plan == [] {
      EmptyPlanFits(w, root);
    } else {
      assert run != [] && run[0].va == Vas(run)[0] == plan[0];
      TailRun(w, pages, run, w', pages', kroot, cap, root);
      LoadedIff(w, pages, run[0], kroot, cap, root);
      if run[0].outcome.Mapped? {
        LoadedState(w, pages, run[0], kroot, cap, root);
        FollowsRest(run, plan);
        RunSucceedsIff(After(run[0]), run[0].pages, run[1..], w', pages', kroot, cap, root, plan[1..]);
        FitsRest(w, pages, run[0], kroot, cap, root, plan);
      } else if Fits(w, root, plan) {
        FirstPlanned(w, root, plan);
      }
    }
  }

  lemma EmptyPlanFits(w: World, root: Frame)
    ensures Fits(w, root, [])
  {
    assert PlanPages([]) == {} && MissingTables(w.mem, root, {}) == {};
  }

  lemma FollowsRest(run: seq<PageLoad>, plan: seq<nat>)
    requires Follows(run, plan) && run != [] && run[0].outcome.Mapped?
    ensures Follows(run[1..], plan[1..]) && (AllMapped(run) <==> AllMapped(run[1..]))
  {
    var rest := run[1..];
    assert Vas(rest) == Vas(run)[1..];
    assert forall n :: 0 <= n < |rest| ==> rest[n] == run[n + 1];
    if AllMapped(rest) {
      forall n | 0 <= n < |run| ensures run[n].outcome.Mapped? {
        assert n > 0 ==> run[n] == rest[n - 1];
      }
    }
  }

  lemma VasJoin(a: seq<PageLoad>, b: seq<PageLoad>)
    ensures Vas(a + b) == Vas(a) + Vas(b)
  {
  }

  /** A finished part and a following part make a run that follows the joined plan. */
  lemma FollowsJoin(a: seq<PageLoad>, planA: seq<nat>, b: seq<PageLoad>, planB: seq<nat>)
    requires AllMapped(a) && Vas(a) == planA && Follows(b, planB)
    ensures Follows(a + b, planA + planB) && (AllMapped(a + b) <==> AllMapped(b))
  {
    VasJoin(a, b);
    var run := a + b;
    forall n | 0 <= n < |run| - 1 ensures run[n].outcome.Mapped? {
      assert n >= |a| ==> run[n] == b[n - |a|];
    }
    if AllMapped(run) {
      forall n | 0 <= n < |b| ensures b[n].outcome.Mapped? {
        assert b[n] == run[|a| + n];
      }
    }
  }

  /** A run that stopped early follows every longer plan. */
  lemma FollowsLonger(run: seq<PageLoad>, plan: seq<nat>, longer: seq<nat>)
    requires Follows(run, plan) && plan <= longer && !AllMapped(run)
    ensures Follows(run, longer)
  {
  }
}
