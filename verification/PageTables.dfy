/** Page tables as values: the contents of physical frames, the four-level walk,
    and the tree invariant under which a walk is a flat map from page numbers to leaves. */
module PageTables {
  import opened Basics

  const ENTRIES: nat := 512
  const PAGE_SIZE: nat := 4096
  const TABLE_LEVELS: nat := 4
  /** Walks look at address bits 12..47 only, so there are 2^36 page numbers. */
  const VPN_LIMIT: nat := 0x10_0000_0000

  type Frame = nat

  datatype MapFlags = MapFlags(writable: bool, userAccessible: bool, executeDisable: bool, device: bool)

  datatype Entry = Absent | Present(frame: Frame, flags: MapFlags)

  /** A physical frame is used either as a table of 512 entries or as 4096 bytes. */
  datatype Contents = Table(entries: seq<Entry>) | Data(bytes: seq<Byte>)

  type Memory = map<Frame, Contents>

  const TABLE_FLAGS: MapFlags := MapFlags(true, true, false, false)

  /** An entry that restricts nothing below it. */
  predicate Open(flags: MapFlags) {
    flags.writable && flags.userAccessible && !flags.executeDisable && !flags.device
  }

  function EmptyTable(): (t: Contents)
    ensures t.Table? && |t.entries| == ENTRIES
    ensures forall i :: 0 <= i < ENTRIES ==> t.entries[i].Absent?
  {
    Table(seq(ENTRIES, i => Absent))
  }

  predicate IsTable(mem: Memory, f: Frame) {
    f in mem && mem[f].Table? && |mem[f].entries| == ENTRIES
  }

  function At(mem: Memory, f: Frame, i: int): Entry {
    if IsTable(mem, f) && 0 <= i < ENTRIES then mem[f].entries[i] else Absent
  }

  function SetEntry(mem: Memory, f: Frame, i: nat, e: Entry): (mem': Memory)
    requires IsTable(mem, f) && i < ENTRIES
    ensures IsTable(mem', f)
    ensures forall g, j :: At(mem', g, j) == if g == f && j == i then e else At(mem, g, j)
    ensures forall g :: g != f ==> (g in mem' <==> g in mem) && (g in mem ==> mem'[g] == mem[g])
  {
    mem[f := Table(mem[f].entries[i := e])]
  }

  // ---------------------------------------------------------------------------
  // Address arithmetic
  // ---------------------------------------------------------------------------

  function Vpn(va: nat): (v: nat)
    ensures v < VPN_LIMIT
  {
    va / PAGE_SIZE % VPN_LIMIT
  }

  /** The part of page number `v` that selects the table at `level` on its path. */
  function Prefix(v: nat, level: nat): nat
    decreases TABLE_LEVELS - level
  {
    if level >= TABLE_LEVELS then v else Prefix(v, level + 1) / ENTRIES
  }

  function Index(v: nat, level: nat): (i: nat)
    ensures i < ENTRIES
  {
    Prefix(v, level + 1) % ENTRIES
  }

  lemma PrefixSplit(v: nat, level: nat)
    requires level < TABLE_LEVELS
    ensures Prefix(v, level + 1) == Prefix(v, level) * ENTRIES + Index(v, level)
  {
  }

  lemma PrefixRoot(v: nat)
    requires v < VPN_LIMIT
    ensures Prefix(v, 0) == 0
  {
    assert Prefix(v, 3) == v / 512;
    assert Prefix(v, 2) == v / 512 / 512;
    assert Prefix(v, 1) == v / 512 / 512 / 512;
  }

  /** The kernel's shift-and-mask expressions select exactly the indices of the page number. */
  lemma IndexIsShiftAndMask(va: nat)
    ensures Index(Vpn(va), 0) == va / 0x80_0000_0000 % 512
    ensures Index(Vpn(va), 1) == va / 0x4000_0000 % 512
    ensures Index(Vpn(va), 2) == va / 0x20_0000 % 512
    ensures Index(Vpn(va), 3) == va / 0x1000 % 512
  {
    var w := va / 4096;
    var v := Vpn(va);
    var q := w / VPN_LIMIT;
    assert w == q * VPN_LIMIT + v;
    assert Prefix(v, 4) == v && Prefix(v, 3) == v / 512 && Prefix(v, 2) == v / 512 / 512;
    assert Prefix(v, 1) == v / 512 / 512 / 512;
    assert va / 0x20_0000 == w / 512;
    assert va / 0x4000_0000 == w / 512 / 512;
    assert va / 0x80_0000_0000 == w / 512 / 512 / 512;
    assert w / 512 == q * 0x800_0000 + v / 512;
    assert w / 512 / 512 == q * 0x4_0000 + v / 512 / 512;
    assert w / 512 / 512 / 512 == q * 512 + v / 512 / 512 / 512;
  }

  // ---------------------------------------------------------------------------
  // The walk
  // ---------------------------------------------------------------------------

  /** The table that the walk for `v` reads at `level`, if the walk gets that far. */
  function TableOf(mem: Memory, root: Frame, v: nat, level: nat): Option<Frame> {
    if level == 0 then Some(root)
    else
      match TableOf(mem, root, v, level - 1)
      case None => None
      case Some(t) =>
        var e := At(mem, t, Index(v, level - 1));
        if e.Present? then Some(e.frame) else None
  }

  /** The leaf entry for page number `v`. */
  function Walk(mem: Memory, root: Frame, v: nat): Entry {
    match TableOf(mem, root, v, 3)
    case None => Absent
    case Some(t) => At(mem, t, Index(v, 3))
  }

  /** The entry that the walk for `v` reads at `level`. */
  function EntryOf(mem: Memory, root: Frame, v: nat, level: nat): Entry {
    match TableOf(mem, root, v, level)
    case None => Absent
    case Some(t) => At(mem, t, Index(v, level))
  }

  /** The walk written out level by level, as the kernel's readers perform it. */
  lemma WalkUnfolds(mem: Memory, root: Frame, v: nat)
    ensures var e0 := At(mem, root, Index(v, 0));
            if e0.Absent? then TableOf(mem, root, v, 3).None? else
            var e1 := At(mem, e0.frame, Index(v, 1));
            if e1.Absent? then TableOf(mem, root, v, 3).None? else
            var e2 := At(mem, e1.frame, Index(v, 2));
            TableOf(mem, root, v, 3) == if e2.Absent? then None else Some(e2.frame)
  {
    assert TableOf(mem, root, v, 0) == Some(root);
    var t1 := TableOf(mem, root, v, 1);
    var t2 := TableOf(mem, root, v, 2);
    assert t1.None? ==> t2.None?;
  }

  /** The abstract address space: a finite map from page numbers to leaves. */
  ghost function Flat(mem: Memory, root: Frame): map<nat, Entry> {
    map v | 0 <= v < VPN_LIMIT && Walk(mem, root, v).Present? :: Walk(mem, root, v)
  }

  // ---------------------------------------------------------------------------
  // The tree invariant
  // ---------------------------------------------------------------------------

  /** What a table frame is for: the address space it belongs to (named by that space's root),
      its level, the page-number prefix it serves, and the table that links to it. */
  datatype Tag = Tag(space: Frame, level: nat, prefix: nat, parent: Frame)

  type Tags = map<Frame, Tag>

  function ChildTag(tags: Tags, f: Frame, i: nat): Tag
    requires f in tags
  {
    Tag(tags[f].space, tags[f].level + 1, tags[f].prefix * ENTRIES + i, f)
  }

  predicate IsRoot(tags: Tags, r: Frame) {
    r in tags && tags[r] == Tag(r, 0, 0, r)
  }

  /** A present entry leads to a table made for that position of that space; a root may
      also lead to the kernel root's own first-level table for the same slot. */
  predicate ForwardAt(mem: Memory, kroot: Frame, tags: Tags, f: Frame, i: nat)
    requires f in tags
  {
    At(mem, f, i).Present? ==>
      var c := At(mem, f, i).frame;
      c in tags && (tags[c] == ChildTag(tags, f, i)
                    || (tags[f].level == 0 && tags[c] == Tag(kroot, 1, i, kroot)))
  }

  /** Every table but a root hangs off the entry its tag names. */
  predicate BackwardAt(mem: Memory, tags: Tags, c: Frame)
    requires c in tags
  {
    var t := tags[c];
    if t.level == 0 then IsRoot(tags, c)
    else
      t.parent in tags
      && t == ChildTag(tags, t.parent, t.prefix % ENTRIES)
      && At(mem, t.parent, t.prefix % ENTRIES).Present?
      && At(mem, t.parent, t.prefix % ENTRIES).frame == c
  }

  ghost predicate Tree(mem: Memory, kroot: Frame, tags: Tags) {
    && (forall f :: f in tags ==> IsTable(mem, f) && tags[f].level < TABLE_LEVELS)
    && (forall f, i :: f in tags && tags[f].level < 3 && 0 <= i < ENTRIES ==> ForwardAt(mem, kroot, tags, f, i))
    && (forall c {:trigger BackwardAt(mem, tags, c)} :: c in tags ==> BackwardAt(mem, tags, c))
  }

  /** Tables reached by a walk carry the tag of their position, whatever the root. */
  lemma {:induction false} PathTag(mem: Memory, kroot: Frame, tags: Tags, r: Frame, v: nat, level: nat)
    requires Tree(mem, kroot, tags) && IsRoot(tags, r) && v < VPN_LIMIT && level <= 3
    requires TableOf(mem, r, v, level).Some?
    ensures var t := TableOf(mem, r, v, level).value;
            t in tags && tags[t].level == level && tags[t].prefix == Prefix(v, level)
            && (tags[t].space == r || tags[t].space == kroot)
  {
    PrefixRoot(v);
    if level > 0 {
      PathTag(mem, kroot, tags, r, v, level - 1);
      var p := TableOf(mem, r, v, level - 1).value;
      assert ForwardAt(mem, kroot, tags, p, Index(v, level - 1));
      PrefixSplit(v, level - 1);
    }
  }

  /** From level 1 on, a walk stays in the space it entered. */
  lemma {:induction false} PathSpaceFixed(mem: Memory, kroot: Frame, tags: Tags, r: Frame, v: nat, level: nat)
    requires Tree(mem, kroot, tags) && IsRoot(tags, r) && v < VPN_LIMIT && 1 <= level <= 3
    requires TableOf(mem, r, v, level).Some?
    ensures TableOf(mem, r, v, 1).Some? && TableOf(mem, r, v, 1).value in tags
    ensures TableOf(mem, r, v, level).value in tags
    ensures tags[TableOf(mem, r, v, level).value].space == tags[TableOf(mem, r, v, 1).value].space
  {
    PathTag(mem, kroot, tags, r, v, level);
    if level > 1 {
      PathSpaceFixed(mem, kroot, tags, r, v, level - 1);
      PathTag(mem, kroot, tags, r, v, level - 1);
      var p := TableOf(mem, r, v, level - 1).value;
      assert ForwardAt(mem, kroot, tags, p, Index(v, level - 1));
    }
  }

  // ---------------------------------------------------------------------------
  // The four elementary edits
  // ---------------------------------------------------------------------------

  /** Two memories whose upper-level links agree take every walk through the same tables. */
  ghost predicate SameLinks(mem: Memory, mem': Memory, tags: Tags) {
    forall f, i :: f in tags && tags[f].level < 3 && 0 <= i < ENTRIES ==> SameLink(At(mem, f, i), At(mem', f, i))
  }

  predicate SameLink(e: Entry, e': Entry) {
    (e.Present? <==> e'.Present?) && (e.Present? ==> e'.frame == e.frame)
  }

  lemma {:induction false} SameLinksSamePath(mem: Memory, mem': Memory, kroot: Frame, tags: Tags, r: Frame, v: nat,
                                             level: nat)
    requires Tree(mem, kroot, tags) && IsRoot(tags, r) && v < VPN_LIMIT && level <= 3
    requires SameLinks(mem, mem', tags)
    ensures TableOf(mem', r, v, level) == TableOf(mem, r, v, level)
  {
    if level > 0 {
      SameLinksSamePath(mem, mem', kroot, tags, r, v, level - 1);
      if TableOf(mem, r, v, level - 1).Some? {
        PathTag(mem, kroot, tags, r, v, level - 1);
        var p := TableOf(mem, r, v, level - 1).value;
        assert SameLink(At(mem, p, Index(v, level - 1)), At(mem', p, Index(v, level - 1)));
      }
    }
  }

  /** A leaf slot serves one page number: writing it changes that page and no other. */
  lemma SetLeafWalk(mem: Memory, kroot: Frame, tags: Tags, f: Frame, i: nat, e: Entry, r: Frame, v: nat)
    requires Tree(mem, kroot, tags) && IsRoot(tags, r) && v < VPN_LIMIT
    requires f in tags && tags[f].level == 3 && i < ENTRIES
    ensures var mem' := SetEntry(mem, f, i, e);
            Walk(mem', r, v) == if TableOf(mem, r, v, 3) == Some(f) && Index(v, 3) == i then e else Walk(mem, r, v)
    ensures TableOf(mem, r, v, 3) == Some(f) && Index(v, 3) == i ==> v == tags[f].prefix * ENTRIES + i
  {
    var mem' := SetEntry(mem, f, i, e);
    assert SameLinks(mem, mem', tags);
    SameLinksSamePath(mem, mem', kroot, tags, r, v, 3);
    if TableOf(mem, r, v, 3) == Some(f) {
      PathTag(mem, kroot, tags, r, v, 3);
      PrefixSplit(v, 3);
    }
  }

  lemma SetLeafTree(mem: Memory, kroot: Frame, tags: Tags, f: Frame, i: nat, e: Entry)
    requires Tree(mem, kroot, tags)
    requires f in tags && tags[f].level == 3 && i < ENTRIES
    ensures Tree(SetEntry(mem, f, i, e), kroot, tags)
  {
    var mem' := SetEntry(mem, f, i, e);
    forall g, j | g in tags && tags[g].level < 3 && 0 <= j < ENTRIES ensures ForwardAt(mem', kroot, tags, g, j) {
      assert ForwardAt(mem, kroot, tags, g, j);
    }
    forall c | c in tags ensures BackwardAt(mem', tags, c) {
      assert BackwardAt(mem, tags, c);
    }
  }

  /** Granting user access on an existing link changes no walk. */
  lemma GrantUser(mem: Memory, kroot: Frame, tags: Tags, f: Frame, i: nat)
    requires Tree(mem, kroot, tags)
    requires f in tags && tags[f].level < 3 && i < ENTRIES && At(mem, f, i).Present?
    ensures var e := At(mem, f, i);
            var mem' := SetEntry(mem, f, i, e.(flags := e.flags.(userAccessible := true)));
            Tree(mem', kroot, tags)
            && forall r, v :: IsRoot(tags, r) && 0 <= v < VPN_LIMIT ==> Walk(mem', r, v) == Walk(mem, r, v)
  {
    var e := At(mem, f, i);
    var mem' := SetEntry(mem, f, i, e.(flags := e.flags.(userAccessible := true)));
    forall g, j | g in tags && tags[g].level < 3 && 0 <= j < ENTRIES ensures ForwardAt(mem', kroot, tags, g, j) {
      assert ForwardAt(mem, kroot, tags, g, j);
    }
    forall c | c in tags ensures BackwardAt(mem', tags, c) {
      assert BackwardAt(mem, tags, c);
    }
    assert SameLinks(mem, mem', tags);
    forall r, v | IsRoot(tags, r) && 0 <= v < VPN_LIMIT ensures Walk(mem', r, v) == Walk(mem, r, v) {
      SameLinksSamePath(mem, mem', kroot, tags, r, v, 3);
      if TableOf(mem, r, v, 3).Some? {
        PathTag(mem, kroot, tags, r, v, 3);
      }
    }
  }

  function Linked(mem: Memory, f: Frame, i: nat, c: Frame): (mem': Memory)
    requires IsTable(mem, f) && i < ENTRIES && c != f
  {
    SetEntry(mem[c := EmptyTable()], f, i, Present(c, TABLE_FLAGS))
  }

  /** Linking a zeroed frame that no tree uses keeps the tree invariant. */
  lemma LinkTree(mem: Memory, kroot: Frame, tags: Tags, f: Frame, i: nat, c: Frame)
    requires Tree(mem, kroot, tags)
    requires f in tags && tags[f].level < 3 && i < ENTRIES && At(mem, f, i).Absent? && c !in tags
    ensures Tree(Linked(mem, f, i, c), kroot, tags[c := ChildTag(tags, f, i)])
  {
    var mem' := Linked(mem, f, i, c);
    var tags' := tags[c := ChildTag(tags, f, i)];
    forall g, j | g in tags' && tags'[g].level < 3 && 0 <= j < ENTRIES ensures ForwardAt(mem', kroot, tags', g, j) {
      if g != c {
        assert ForwardAt(mem, kroot, tags, g, j);
      }
    }
    forall d | d in tags' ensures BackwardAt(mem', tags', d) {
      if d != c {
        assert BackwardAt(mem, tags, d);
      }
    }
  }

  /** The walk through a newly linked table finds nothing, as before. */
  lemma {:induction false} LinkPath(mem: Memory, kroot: Frame, tags: Tags, f: Frame, i: nat, c: Frame, r: Frame,
                                    v: nat, level: nat)
    requires Tree(mem, kroot, tags)
    requires f in tags && tags[f].level < 3 && i < ENTRIES && At(mem, f, i).Absent? && c !in tags
    requires IsRoot(tags, r) && v < VPN_LIMIT && level <= 3
    ensures var t := TableOf(mem, r, v, level);
            var t' := TableOf(Linked(mem, f, i, c), r, v, level);
            t' == t || (t.None? && t' == Some(c))
  {
    if level > 0 {
      LinkPath(mem, kroot, tags, f, i, c, r, v, level - 1);
      if TableOf(mem, r, v, level - 1).Some? {
        PathTag(mem, kroot, tags, r, v, level - 1);
      }
    }
  }

  lemma LinkWalk(mem: Memory, kroot: Frame, tags: Tags, f: Frame, i: nat, c: Frame, r: Frame, v: nat)
    requires Tree(mem, kroot, tags)
    requires f in tags && tags[f].level < 3 && i < ENTRIES && At(mem, f, i).Absent? && c !in tags
    requires IsRoot(tags, r) && v < VPN_LIMIT
    ensures Walk(Linked(mem, f, i, c), r, v) == Walk(mem, r, v)
  {
    LinkPath(mem, kroot, tags, f, i, c, r, v, 3);
    if TableOf(mem, r, v, 3).Some? {
      PathTag(mem, kroot, tags, r, v, 3);
    }
  }

  /** Memory outside the tables has no influence on walks. */
  lemma SameTablesSameWalk(mem: Memory, mem': Memory, kroot: Frame, tags: Tags, r: Frame, v: nat)
    requires Tree(mem, kroot, tags) && IsRoot(tags, r) && v < VPN_LIMIT
    requires forall f :: f in tags ==> f in mem' && mem'[f] == mem[f]
    ensures Walk(mem', r, v) == Walk(mem, r, v)
  {
    assert SameLinks(mem, mem', tags);
    SameLinksSamePath(mem, mem', kroot, tags, r, v, 3);
    if TableOf(mem, r, v, 3).Some? {
      PathTag(mem, kroot, tags, r, v, 3);
    }
  }

  lemma SameTablesTree(mem: Memory, mem': Memory, kroot: Frame, tags: Tags)
    requires Tree(mem, kroot, tags)
    requires forall f :: f in tags ==> f in mem' && mem'[f] == mem[f]
    ensures Tree(mem', kroot, tags)
  {
    forall g, j | g in tags && tags[g].level < 3 && 0 <= j < ENTRIES ensures ForwardAt(mem', kroot, tags, g, j) {
      assert ForwardAt(mem, kroot, tags, g, j);
    }
    forall c | c in tags ensures BackwardAt(mem', tags, c) {
      assert BackwardAt(mem, tags, c);
    }
  }
}
