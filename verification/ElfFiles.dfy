/** ELF64 files as the gABI lays them out, and which of them the loader accepts. */
module ElfFiles {
  import opened Basics
  import opened Vmm
  import opened Elf

  /** The file header, field by field; the bytes the loader does not look at are arbitrary. */
  datatype FileHeader = FileHeader(magic: seq<Byte>, fileClass: Byte, byteOrder: Byte, ident: seq<Byte>, kind: nat,
                                   machine: nat, version: nat, entry: nat, phoff: nat, shoff: nat, flags: nat,
                                   ehsize: nat, phentsize: nat, phnum: nat, sections: seq<Byte>)

  predicate FileHeaderFits(h: FileHeader) {
    && |h.magic| == 4 && |h.ident| == 10 && |h.sections| == 6
    && h.kind < 0x1_0000 && h.machine < 0x1_0000 && h.ehsize < 0x1_0000 && h.phentsize < 0x1_0000 && h.phnum < 0x1_0000
    && h.version < 0x1_0000_0000 && h.flags < 0x1_0000_0000
    && h.entry < ADDRESS_LIMIT && h.phoff < ADDRESS_LIMIT && h.shoff < ADDRESS_LIMIT
  }

  function IdentBytes(h: FileHeader): seq<Byte> {
    h.magic + [h.fileClass, h.byteOrder] + h.ident
  }

  function FrontBytes(h: FileHeader): seq<Byte> {
    IdentBytes(h) + ToLe(h.kind, 2) + ToLe(h.machine, 2) + ToLe(h.version, 4) + ToLe(h.entry, 8) + ToLe(h.phoff, 8)
  }

  function BackBytes(h: FileHeader): seq<Byte> {
    ToLe(h.shoff, 8) + ToLe(h.flags, 4) + ToLe(h.ehsize, 2) + ToLe(h.phentsize, 2) + ToLe(h.phnum, 2) + h.sections
  }

  function FileHeaderBytes(h: FileHeader): seq<Byte> {
    FrontBytes(h) + BackBytes(h)
  }

  /** The file starts with header `h`. */
  predicate StartsWith(elf: seq<Byte>, h: FileHeader) {
    FileHeaderFits(h) && |elf| >= 64 && elf[..64] == FileHeaderBytes(h)
  }

  lemma FileFieldsRead(elf: seq<Byte>, h: FileHeader)
    requires StartsWith(elf, h)
    ensures Le(elf, 16, 2) == h.kind && Le(elf, 18, 2) == h.machine && Le(elf, 24, 8) == h.entry
    ensures Le(elf, 32, 8) == h.phoff && Le(elf, 54, 2) == h.phentsize && Le(elf, 56, 2) == h.phnum
  {
    hide Le, ToLe, Pow256, FrontBytes, BackBytes;
    Halves(h);
    assert elf[0..40] == elf[..64][..40] == FrontBytes(h);
    assert elf[40..64] == elf[..64][40..] == BackBytes(h);
    FrontFields(elf, h);
    BackFields(elf, h);
  }

  lemma Halves(h: FileHeader)
    requires FileHeaderFits(h)
    ensures |FrontBytes(h)| == 40 && |BackBytes(h)| == 24
  {
    hide ToLe;
  }

  lemma FrontFields(elf: seq<Byte>, h: FileHeader)
    requires FileHeaderFits(h) && |elf| >= 64 && elf[0..40] == FrontBytes(h)
    ensures Le(elf, 16, 2) == h.kind && Le(elf, 18, 2) == h.machine && Le(elf, 24, 8) == h.entry
    ensures Le(elf, 32, 8) == h.phoff
  {
    hide Le, ToLe, Pow256, IdentBytes;
    Pow256Values();
    IdentLength(h);
    var b := FrontBytes(h);
    var i, k, m, v, e, p := IdentBytes(h), ToLe(h.kind, 2), ToLe(h.machine, 2), ToLe(h.version, 4), ToLe(h.entry, 8),
        ToLe(h.phoff, 8);
    assert b == i + k + (m + v + e + p);
    FieldAt(elf, 0, b, i, h.kind, 2, m + v + e + p);
    assert b == (i + k) + m + (v + e + p);
    FieldAt(elf, 0, b, i + k, h.machine, 2, v + e + p);
    FieldAt(elf, 0, b, i + k + m + v, h.entry, 8, p);
    assert b == (i + k + m + v + e) + p + [];
    FieldAt(elf, 0, b, i + k + m + v + e, h.phoff, 8, []);
  }

  lemma BackFields(elf: seq<Byte>, h: FileHeader)
    requires FileHeaderFits(h) && |elf| >= 64 && elf[40..64] == BackBytes(h)
    ensures Le(elf, 54, 2) == h.phentsize && Le(elf, 56, 2) == h.phnum
  {
    hide Le, ToLe, Pow256;
    Pow256Values();
    var b := BackBytes(h);
    var s, f, z, t, n, r := ToLe(h.shoff, 8), ToLe(h.flags, 4), ToLe(h.ehsize, 2), ToLe(h.phentsize, 2),
        ToLe(h.phnum, 2), h.sections;
    assert b == (s + f + z) + t + (n + r);
    FieldAt(elf, 40, b, s + f + z, h.phentsize, 2, n + r);
    FieldAt(elf, 40, b, s + f + z + t, h.phnum, 2, r);
  }

  lemma IdentLength(h: FileHeader)
    requires FileHeaderFits(h)
    ensures |IdentBytes(h)| == 16
  {
  }

  lemma IdentRead(elf: seq<Byte>, h: FileHeader)
    requires StartsWith(elf, h)
    ensures elf[..4] == h.magic && elf[4] == h.fileClass && elf[5] == h.byteOrder
  {
    hide ToLe;
    var b := FileHeaderBytes(h);
    assert forall k :: 0 <= k < 64 ==> elf[k] == elf[..64][k] == b[k];
    assert forall k :: 0 <= k < 16 ==> FrontBytes(h)[k] == IdentBytes(h)[k];
    assert forall k :: 0 <= k < 16 ==> b[k] == FrontBytes(h)[k];
  }

  /** The distance between program headers. */
  function EntrySize(h: FileHeader): nat {
    if h.phentsize < 56 then 56 else h.phentsize
  }

  const ELF_MAGIC: seq<Byte> := [0x7F, 0x45, 0x4C, 0x46]

  predicate MachineOk(h: FileHeader, arch: Arch) {
    match arch
    case X86_64 => h.machine == 62
    case AArch64 => h.machine == 183
  }

  /** A 64-bit little-endian executable or shared object for this machine, with program headers in the
      file, as far as 64-bit arithmetic can tell. */
  predicate Orderly(h: FileHeader, arch: Arch, length: nat) {
    && h.magic == ELF_MAGIC && h.fileClass == 2 && h.byteOrder == 1 && (h.kind == 2 || h.kind == 3)
    && MachineOk(h, arch) && h.phoff != 0 && h.phnum != 0
    && (h.phoff + h.phnum * EntrySize(h)) % ADDRESS_LIMIT <= length
  }

  /** A file passes exactly when its header is orderly, and each refusal names the first thing wrong. */
  lemma HeaderCheckIff(elf: seq<Byte>, h: FileHeader, arch: Arch)
    requires StartsWith(elf, h)
    ensures HeaderCheck(elf, arch).None? <==> Orderly(h, arch, |elf|)
    ensures HeaderCheck(elf, arch) == Some(BadMagic) <==> h.magic != ELF_MAGIC
    ensures HeaderCheck(elf, arch) == Some(BadClass) <==> h.magic == ELF_MAGIC && h.fileClass != 2
    ensures HeaderCheck(elf, arch) == Some(BadByteOrder) <==>
            h.magic == ELF_MAGIC && h.fileClass == 2 && h.byteOrder != 1
    ensures HeaderCheck(elf, arch) == Some(BadType) <==>
            h.magic == ELF_MAGIC && h.fileClass == 2 && h.byteOrder == 1 && h.kind != 2 && h.kind != 3
    ensures HeaderCheck(elf, arch) == Some(BadMachine) <==>
            h.magic == ELF_MAGIC && h.fileClass == 2 && h.byteOrder == 1 && (h.kind == 2 || h.kind == 3) &&
            !MachineOk(h, arch)
    ensures HeaderCheck(elf, arch) == Some(NoHeaders) <==>
            h.magic == ELF_MAGIC && h.fileClass == 2 && h.byteOrder == 1 && (h.kind == 2 || h.kind == 3) &&
            MachineOk(h, arch) && (h.phoff == 0 || h.phnum == 0)
    ensures HeaderCheck(elf, arch) == Some(TruncatedHeaders) <==>
            h.magic == ELF_MAGIC && h.fileClass == 2 && h.byteOrder == 1 && (h.kind == 2 || h.kind == 3) &&
            MachineOk(h, arch) && h.phoff != 0 && h.phnum != 0 &&
            (h.phoff + h.phnum * EntrySize(h)) % ADDRESS_LIMIT > |elf|
  {
    hide Le, FileHeaderBytes;
    FileFieldsRead(elf, h);
    IdentRead(elf, h);
    MagicBytes(elf, h);
    assert Stride(elf) == EntrySize(h);
  }

  lemma MagicBytes(elf: seq<Byte>, h: FileHeader)
    requires |elf| >= 64 && |h.magic| == 4 && elf[..4] == h.magic
    ensures h.magic == ELF_MAGIC <==>
            elf[0] == 0x7F && elf[1] == 'E' as int && elf[2] == 'L' as int && elf[3] == 'F' as int
  {
    assert forall k :: 0 <= k < 4 ==> elf[k] == h.magic[k];
  }

  /** Program headers `ps` stand where the file header says. */
  ghost predicate Holds(elf: seq<Byte>, h: FileHeader, ps: seq<ProgramHeader>) {
    && |ps| == h.phnum
    && forall i :: 0 <= i < |ps| ==> HoldsAt(elf, h, ps[i], i)
  }

  ghost predicate HoldsAt(elf: seq<Byte>, h: FileHeader, p: ProgramHeader, i: nat) {
    var o := h.phoff + i * EntrySize(h);
    HeaderFits(p) && o + 56 <= |elf| && elf[o..o + 56] == HeaderBytes(p)
  }

  /** A loadable header has its bytes in the file, no more than its memory, all of it in user space. */
  predicate Admissible(p: ProgramHeader, length: nat) {
    && p.filesz <= p.memsz && p.offset + p.filesz <= length
    && p.vaddr + p.memsz < ADDRESS_LIMIT && p.vaddr >= 0x80_0000_0000
  }

  lemma OffsetIs(elf: seq<Byte>, h: FileHeader, i: nat)
    requires StartsWith(elf, h)
    ensures HeaderOffset(elf, i) == h.phoff + i * EntrySize(h)
  {
    hide Le, FileHeaderBytes;
    FileFieldsRead(elf, h);
    assert Stride(elf) == EntrySize(h);
  }

  lemma RefusedIff(elf: seq<Byte>, h: FileHeader, p: ProgramHeader, i: nat)
    requires StartsWith(elf, h) && |elf| < 0x8000_0000_0000_0000 && HoldsAt(elf, h, p, i)
    ensures Refusal(elf, i).None? <==> (p.kind == 1 ==> Admissible(p, |elf|))
  {
    hide Le, HeaderBytes, HeaderOffset, FileHeaderBytes, Refusal, EntrySize;
    OffsetIs(elf, h, i);
    if p.kind == 1 {
      RefusalIff(elf, i, p);
    } else {
      OtherPasses(elf, p, i);
    }
  }

  lemma OtherPasses(elf: seq<Byte>, p: ProgramHeader, i: nat)
    requires 64 <= |elf| < 0x8000_0000_0000_0000 && HeaderFits(p) && p.kind != 1
    requires var o := HeaderOffset(elf, i); o + 56 <= |elf| && elf[o..o + 56] == HeaderBytes(p)
    ensures Refusal(elf, i).None?
  {
    hide Le, HeaderBytes, HeaderOffset;
    HeaderFieldsRead(elf, HeaderOffset(elf, i), p);
  }

  /** A file whose headers are `h` and `ps` is accepted exactly when the file header is orderly, every
      loadable program header is admissible and the entry point is in user space. */
  lemma AcceptedIff(elf: seq<Byte>, h: FileHeader, ps: seq<ProgramHeader>, arch: Arch)
    requires StartsWith(elf, h) && |elf| < 0x8000_0000_0000_0000 && Holds(elf, h, ps)
    ensures Accepted(elf, arch) <==>
            && Orderly(h, arch, |elf|) && h.entry >= 0x80_0000_0000
            && forall i :: 0 <= i < |ps| && ps[i].kind == 1 ==> Admissible(ps[i], |elf|)
  {
    hide Le, HeaderBytes, FileHeaderBytes, Refusal, HeaderCheck, Orderly, Admissible, HoldsAt;
    FileFieldsRead(elf, h);
    HeaderCheckIff(elf, h, arch);
    forall i | 0 <= i < |ps| ensures Refusal(elf, i).None? <==> (ps[i].kind == 1 ==> Admissible(ps[i], |elf|)) {
      RefusedIff(elf, h, ps[i], i);
    }
  }

  /** The segments the loadable and admissible headers among the first `n` describe. */
  function Described(elf: seq<Byte>, ps: seq<ProgramHeader>, n: nat): seq<Segment>
    requires n <= |ps|
  {
    if n == 0 then []
    else
      var p := ps[n - 1];
      Described(elf, ps, n - 1) +
      if p.kind == 1 && Admissible(p, |elf|)
      then [Segment(p.vaddr, elf[p.offset..p.offset + p.filesz], p.memsz, p.flags)] else []
  }

  /** What is loaded of an accepted file is what its loadable headers describe, in their order. */
  lemma {:induction false} SegmentsAre(elf: seq<Byte>, h: FileHeader, ps: seq<ProgramHeader>, n: nat)
    requires StartsWith(elf, h) && Holds(elf, h, ps) && n <= |ps|
    requires forall i :: 0 <= i < n && ps[i].kind == 1 ==> Admissible(ps[i], |elf|)
    ensures LoadList(elf, n) == Described(elf, ps, n)
    ensures n == |ps| ==> FileSegments(elf) == Described(elf, ps, n)
    decreases n
  {
    hide Le, HeaderBytes, FileHeaderBytes, HeaderOffset, SegmentAt;
    FileFieldsRead(elf, h);
    if n > 0 {
      SegmentsAre(elf, h, ps, n - 1);
      var p := ps[n - 1];
      assert HoldsAt(elf, h, p, n - 1);
      OffsetIs(elf, h, n - 1);
      HeaderFieldsRead(elf, HeaderOffset(elf, n - 1), p);
      if p.kind == 1 {
        HeaderReads(elf, HeaderOffset(elf, n - 1), p);
      }
    }
  }
}
