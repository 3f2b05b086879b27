/** What a page-table operation may do to memory, tables and free frames taken together. */
module Worlds {
  import opened Basics
  import opened PageTables

  /** Physical memory, the tags of its table frames, and the allocator's free frames. */
  datatype World = World(mem: Memory, tags: Tags, free: set<Frame>)

  /** Tables form trees, and no table frame can be handed out again. */
  ghost predicate Sound(w: World, kroot: Frame) {
    && Tree(w.mem, kroot, w.tags)
    && w.tags.Keys !! w.free
  }

  /** Every address space translates as before. */
  ghost predicate SameWalks(w: World, w': World) {
    forall r, v :: IsRoot(w.tags, r) && 0 <= v < VPN_LIMIT ==> Walk(w'.mem, r, v) == Walk(w.mem, r, v)
  }

  /** `w'` adds only empty tables to `w`: taken from the free frames, linked into tables of
      `spaces`, and invisible to every walk; leaf tables and data frames are untouched. */
  ghost predicate Grows(w: World, w': World, spaces: set<Frame>) {
    GrowsTags(w, w', spaces) && GrowsMem(w, w', spaces) && SameWalks(w, w')
  }

  ghost predicate GrowsTags(w: World, w': World, spaces: set<Frame>) {
    && (forall f :: f in w.tags ==> f in w'.tags && w'.tags[f] == w.tags[f])
    && (forall f :: f in w'.tags && f !in w.tags ==>
          f in w.free && w'.tags[f].level > 0 && w'.tags[f].space in spaces)
    && (forall f :: f in w'.free <==> f in w.free && (f in w'.tags ==> f in w.tags))
  }

  ghost predicate GrowsMem(w: World, w': World, spaces: set<Frame>) {
    && (forall f :: f in w.mem && f !in w'.tags ==> f in w'.mem && w'.mem[f] == w.mem[f])
    && (forall f :: f in w.tags && IsTable(w.mem, f) ==> IsTable(w'.mem, f))
    && (forall f :: f in w.tags && f in w.mem && (w.tags[f].level == 3 || w.tags[f].space !in spaces) ==>
          f in w'.mem && w'.mem[f] == w.mem[f])
    && (forall f :: f in w'.tags && f !in w.tags ==> IsTable(w'.mem, f))
    && (forall f, i :: f in w'.tags && f !in w.tags && w'.tags[f].level == 3 ==> At(w'.mem, f, i).Absent?)
    && (forall f, i :: f in w.tags && w.tags[f].level < 3 ==> KeepsLink(At(w.mem, f, i), At(w'.mem, f, i)))
  }

  predicate KeepsLink(e: Entry, e': Entry) {
    e.Present? ==> e'.Present? && e'.frame == e.frame
  }

  lemma GrownRoot(w: World, w': World, r: Frame, spaces: set<Frame>)
    requires Grows(w, w', spaces) && IsRoot(w.tags, r)
    ensures IsRoot(w'.tags, r)
  {
  }

  lemma GrowsRefl(w: World, spaces: set<Frame>)
    ensures Grows(w, w, spaces)
  {
  }

  lemma GrowsTagsTrans(w: World, w1: World, w2: World, s1: set<Frame>, s2: set<Frame>)
    requires GrowsTags(w, w1, s1) && GrowsTags(w1, w2, s2)
    ensures GrowsTags(w, w2, s1 + s2)
  {
  }

  lemma GrowsMemTrans(w: World, w1: World, w2: World, s1: set<Frame>, s2: set<Frame>)
    requires GrowsTags(w, w1, s1) && GrowsTags(w1, w2, s2)
    requires GrowsMem(w, w1, s1) && GrowsMem(w1, w2, s2)
    ensures GrowsMem(w, w2, s1 + s2)
  {
    forall f, i | f in w2.tags && f !in w.tags && w2.tags[f].level == 3 ensures At(w2.mem, f, i).Absent? {
      if f in w1.tags {
        assert At(w1.mem, f, i).Absent?;
      }
    }
    forall f, i | f in w.tags && w.tags[f].level < 3 ensures KeepsLink(At(w.mem, f, i), At(w2.mem, f, i)) {
      assert KeepsLink(At(w.mem, f, i), At(w1.mem, f, i)) && KeepsLink(At(w1.mem, f, i), At(w2.mem, f, i));
    }
  }

  lemma GrowsTrans(w: World, w1: World, w2: World, s1: set<Frame>, s2: set<Frame>)
    requires Grows(w, w1, s1) && Grows(w1, w2, s2)
    ensures Grows(w, w2, s1 + s2)
  {
    GrowsTagsTrans(w, w1, w2, s1, s2);
    GrowsMemTrans(w, w1, w2, s1, s2);
    forall r, v | IsRoot(w.tags, r) && 0 <= v < VPN_LIMIT ensures Walk(w2.mem, r, v) == Walk(w.mem, r, v) {
      assert IsRoot(w1.tags, r);
    }
  }

  ghost function LinkedWorld(w: World, f: Frame, i: nat, c: Frame): World
    requires f in w.tags && IsTable(w.mem, f) && i < ENTRIES && c != f
  {
    World(Linked(w.mem, f, i, c), w.tags[c := ChildTag(w.tags, f, i)], w.free - {c})
  }

  lemma LinkSameWalks(w: World, kroot: Frame, f: Frame, i: nat, c: Frame)
    requires Sound(w, kroot) && c in w.free
    requires f in w.tags && w.tags[f].level < 3 && i < ENTRIES && At(w.mem, f, i).Absent?
    ensures SameWalks(w, LinkedWorld(w, f, i, c))
  {
    forall r, v | IsRoot(w.tags, r) && 0 <= v < VPN_LIMIT
      ensures Walk(LinkedWorld(w, f, i, c).mem, r, v) == Walk(w.mem, r, v)
    {
      LinkWalk(w.mem, kroot, w.tags, f, i, c, r, v);
    }
  }

  lemma LinkGrowsTables(w: World, f: Frame, i: nat, c: Frame)
    requires c in w.free && c !in w.tags
    requires f in w.tags && w.tags[f].level < 3 && IsTable(w.mem, f) && i < ENTRIES && At(w.mem, f, i).Absent?
    ensures GrowsTags(w, LinkedWorld(w, f, i, c), {w.tags[f].space})
    ensures GrowsMem(w, LinkedWorld(w, f, i, c), {w.tags[f].space})
  {
  }

  lemma LinkGrows(w: World, kroot: Frame, f: Frame, i: nat, c: Frame)
    requires Sound(w, kroot) && c in w.free
    requires f in w.tags && w.tags[f].level < 3 && i < ENTRIES && At(w.mem, f, i).Absent?
    ensures Sound(LinkedWorld(w, f, i, c), kroot)
    ensures Grows(w, LinkedWorld(w, f, i, c), {w.tags[f].space})
  {
    assert IsTable(w.mem, f);
    LinkGrowsTables(w, f, i, c);
    LinkTree(w.mem, kroot, w.tags, f, i, c);
    LinkSameWalks(w, kroot, f, i, c);
  }

  ghost function GrantedWorld(w: World, f: Frame, i: nat): World
    requires IsTable(w.mem, f) && i < ENTRIES && At(w.mem, f, i).Present?
  {
    var e := At(w.mem, f, i);
    w.(mem := SetEntry(w.mem, f, i, e.(flags := e.flags.(userAccessible := true))))
  }

  lemma GrantGrows(w: World, kroot: Frame, f: Frame, i: nat)
    requires Sound(w, kroot)
    requires f in w.tags && w.tags[f].level < 3 && i < ENTRIES && At(w.mem, f, i).Present?
    ensures Sound(GrantedWorld(w, f, i), kroot)
    ensures Grows(w, GrantedWorld(w, f, i), {w.tags[f].space})
  {
    GrantUser(w.mem, kroot, w.tags, f, i);
    GrantGrowsMem(w, f, i);
  }

  lemma GrantGrowsMem(w: World, f: Frame, i: nat)
    requires f in w.tags && w.tags[f].level < 3 && IsTable(w.mem, f) && i < ENTRIES && At(w.mem, f, i).Present?
    ensures GrowsMem(w, GrantedWorld(w, f, i), {w.tags[f].space})
  {
  }

  // ---------------------------------------------------------------------------
  // What becomes of table entries
  // ---------------------------------------------------------------------------

  /** An entry as it was; tables that were not there had none. */
  function Was(w: World, f: Frame, i: int): Entry {
    if f in w.tags then At(w.mem, f, i) else Absent
  }

  /** The walk for `v` reads entry `i` of table `f`. */
  predicate OnPath(w: World, root: Frame, v: nat, f: Frame, i: int)
    requires f in w.tags
  {
    TableOf(w.mem, root, v, w.tags[f].level) == Some(f) && i == Index(v, w.tags[f].level)
  }

  /** A new entry restricts nothing; an old one leads where it led, and at most the user bit is raised. */
  predicate EntryAfter(e: Entry, e': Entry, grant: bool) {
    if e.Absent? then e'.Absent? || Open(e'.flags)
    else e'.Present? && e'.frame == e.frame && e'.flags == e.flags.(userAccessible := e.flags.userAccessible || grant)
  }

  /** A link that was not there leads to a table that was not there. */
  predicate NewLink(w: World, e: Entry, e': Entry) {
    e.Absent? && e'.Present? ==> e'.frame !in w.tags
  }

  predicate EditedAt(w: World, w': World, root: Frame, v: nat, level: nat, grant: bool, f: Frame, i: int)
    requires f in w'.tags
  {
    var e, e' := Was(w, f, i), At(w'.mem, f, i);
    if w'.tags[f].level < level && OnPath(w', root, v, f, i) then EntryAfter(e, e', grant) && NewLink(w, e, e')
    else e' == e
  }

  /** What building the path to `v` down to `level` does to the entries of all tables: those on the path
      are linked or granted, the others stay. */
  ghost predicate PathEdited(w: World, w': World, root: Frame, v: nat, level: nat, grant: bool) {
    forall f, i {:trigger EditedAt(w, w', root, v, level, grant, f, i)} ::
      f in w'.tags && w'.tags[f].level < 3 && 0 <= i < ENTRIES ==> EditedAt(w, w', root, v, level, grant, f, i)
  }

  /** The same without saying whether the user bit was raised. */
  predicate EntryKept(e: Entry, e': Entry) {
    EntryAfter(e, e', false) || EntryAfter(e, e', true)
  }

  predicate KeptAt(w: World, w': World, root: Frame, v: nat, f: Frame, i: int)
    requires f in w'.tags
  {
    var e, e' := Was(w, f, i), At(w'.mem, f, i);
    if OnPath(w', root, v, f, i) then EntryKept(e, e') && NewLink(w, e, e') else e' == e
  }

  ghost predicate TablesEdited(w: World, w': World, root: Frame, v: nat) {
    forall f, i {:trigger KeptAt(w, w', root, v, f, i)} ::
      f in w'.tags && w'.tags[f].level < 3 && 0 <= i < ENTRIES ==> KeptAt(w, w', root, v, f, i)
  }

  lemma EditedKept(w: World, w': World, root: Frame, v: nat, grant: bool)
    requires PathEdited(w, w', root, v, 3, grant)
    ensures TablesEdited(w, w', root, v)
  {
    hide OnPath;
    forall f, i | f in w'.tags && w'.tags[f].level < 3 && 0 <= i < ENTRIES ensures KeptAt(w, w', root, v, f, i) {
      assert EditedAt(w, w', root, v, 3, grant, f, i);
    }
  }

  lemma UneditedKept(w: World, root: Frame, v: nat)
    ensures TablesEdited(w, w, root, v)
  {
    hide OnPath;
  }

  /** No table entry restricts what is below it. */
  ghost predicate OpenTables(w: World) {
    forall f, i {:trigger At(w.mem, f, i)} ::
      f in w.tags && w.tags[f].level < 3 && At(w.mem, f, i).Present? ==> Open(At(w.mem, f, i).flags)
  }

  lemma OpenKept(w: World, w': World, root: Frame, v: nat)
    requires OpenTables(w) && TablesEdited(w, w', root, v)
    requires forall f :: f in w.tags ==> f in w'.tags && w'.tags[f] == w.tags[f]
    ensures OpenTables(w')
  {
    hide OnPath;
    forall f, i | f in w'.tags && w'.tags[f].level < 3 && At(w'.mem, f, i).Present?
      ensures Open(At(w'.mem, f, i).flags)
    {
      assert KeptAt(w, w', root, v, f, i);
    }
  }
}
