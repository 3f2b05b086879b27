/** The AHCI driver's splitting: descriptors within pages, commands within the descriptor table. */
module Ahci {
  import opened Basics

  const SECTOR_SIZE: nat := 512
  const PRDT_ENTRIES: nat := 9
  const MAX_TRANSFER_BYTES: nat := (PRDT_ENTRIES - 1) * 4096
  const LBA_LIMIT: nat := 0x1_0000_0000_0000

  datatype AhciError = DeviceNotAta | BufferNotSectorAligned | BufferTooLarge | AddressTranslationFailed | CommandFailed

  datatype Result<T> = Ok(value: T) | Err(error: AhciError)

  // ---------------------------------------------------------------------------
  // Scatter/gather descriptors
  // ---------------------------------------------------------------------------

  /** A piece of a buffer: where it starts and how many bytes it has. */
  datatype Chunk = Chunk(addr: nat, size: nat)

  /** The buffer cut at page boundaries. */
  function Chunks(addr: nat, len: nat): seq<Chunk>
    decreases len
  {
    if len == 0 then []
    else
      var room := 4096 - addr % 4096;
      var size := if room < len then room else len;
      [Chunk(addr, size)] + Chunks(addr + size, len - size)
  }

  /** The number of pages a buffer touches. */
  function PagesTouched(addr: nat, len: nat): nat {
    if len == 0 then 0 else (addr % 4096 + len + 4095) / 4096
  }

  lemma {:induction false} ChunkCount(addr: nat, len: nat)
    ensures |Chunks(addr, len)| == PagesTouched(addr, len)
    decreases len
  {
    if len > 0 {
      var room := 4096 - addr % 4096;
      if room < len {
        ChunkCount(addr + room, len - room);
        assert (addr + room) % 4096 == 0;
      }
    }
  }

  /** Nine descriptors suffice for every buffer of at most 32768 bytes at any address, and an
      unaligned buffer of that size needs all nine. */
  lemma NineSuffice(addr: nat, len: nat)
    requires len <= MAX_TRANSFER_BYTES
    ensures |Chunks(addr, len)| <= PRDT_ENTRIES
    ensures len == MAX_TRANSFER_BYTES ==> (|Chunks(addr, len)| == PRDT_ENTRIES <==> addr % 4096 != 0)
  {
    ChunkCount(addr, len);
  }

  /** The pieces are nonempty, stay inside one page, follow each other without gap, and end where
      the buffer ends. */
  lemma {:induction false} ChunksTile(addr: nat, len: nat, k: nat)
    requires k < |Chunks(addr, len)|
    ensures var c := Chunks(addr, len);
            && 0 < c[k].size && c[k].addr % 4096 + c[k].size <= 4096
            && c[0].addr == addr
            && c[k].addr + c[k].size == (if k + 1 < |c| then c[k + 1].addr else addr + len)
    decreases len
  {
    var room := 4096 - addr % 4096;
    var size := if room < len then room else len;
    var rest := Chunks(addr + size, len - size);
    if k > 0 {
      ChunksTile(addr + size, len - size, k - 1);
    } else if rest != [] {
      ChunksTile(addr + size, len - size, 0);
    }
  }

  lemma EvenSplit(addr: nat, len: nat, size: nat)
    requires addr % 2 == 0 && len % 2 == 0 && size == (if 4096 - addr % 4096 < len then 4096 - addr % 4096 else len)
    ensures size % 2 == 0 && (addr + size) % 2 == 0 && (len - size) % 2 == 0
  {
    var h, q, l := addr / 2, addr / 4096, len / 2;
    assert addr % 4096 == 2 * (h - 2048 * q);
    assert size == 2 * l || size == 2 * (2048 - h + 2048 * q);
  }

  lemma ChunksUnfold(addr: nat, len: nat, size: nat)
    requires len > 0 && size == (if 4096 - addr % 4096 < len then 4096 - addr % 4096 else len)
    ensures Chunks(addr, len) == [Chunk(addr, size)] + Chunks(addr + size, len - size)
  {
  }

  /** Whole words stay whole: descriptors of an even buffer at an even address have even sizes. */
  lemma {:induction false} EvenChunks(addr: nat, len: nat, k: nat)
    requires addr % 2 == 0 && len % 2 == 0 && k < |Chunks(addr, len)|
    ensures Chunks(addr, len)[k].size % 2 == 0
    decreases len
  {
    if len > 0 {
      hide Chunks;
      var size := if 4096 - addr % 4096 < len then 4096 - addr % 4096 else len;
      EvenSplit(addr, len, size);
      ChunksUnfold(addr, len, size);
      if k > 0 {
        EvenChunks(addr + size, len - size, k - 1);
      }
    }
  }

  /** A descriptor as the controller reads it: data base address and zero-based byte count with
      the interrupt bit. */
  datatype Prdt = Prdt(dba: nat, dbc: nat)

  function DescriptorFor(phys: nat, size: nat): Prdt
    requires 0 < size <= 4096
  {
    Prdt(phys, size - 1 + 0x8000_0000)
  }

  /** A descriptor says where its bytes are, how many they are, and asks for an interrupt. */
  lemma DescriptorSays(phys: nat, size: nat)
    requires 0 < size <= 4096
    ensures var d := DescriptorFor(phys, size);
            d.dba == phys && ByteCount(d) == size && d.dbc / 0x8000_0000 == 1 && d.dbc / 0x40_0000 % 512 == 0
  {
  }

  function ByteCount(p: Prdt): nat {
    p.dbc % 0x40_0000 + 1
  }

  /** The descriptors of a buffer, or none if some piece has no physical address. */
  function PrdtFor(addr: nat, len: nat, virtToPhys: map<nat, nat>): Option<seq<Prdt>>
    decreases len
  {
    if len == 0 then Some([])
    else if addr !in virtToPhys then None
    else
      var room := 4096 - addr % 4096;
      var size := if room < len then room else len;
      var rest := PrdtFor(addr + size, len - size, virtToPhys);
      if rest.None? then None else Some([DescriptorFor(virtToPhys[addr], size)] + rest.value)
  }

  /** One descriptor per piece, with the piece's physical address and size. */
  lemma {:induction false} PrdtIsChunks(addr: nat, len: nat, virtToPhys: map<nat, nat>)
    requires PrdtFor(addr, len, virtToPhys).Some?
    ensures var p, c := PrdtFor(addr, len, virtToPhys).value, Chunks(addr, len);
            && |p| == |c|
            && forall k :: 0 <= k < |c| ==>
                c[k].addr in virtToPhys && p[k].dba == virtToPhys[c[k].addr] && ByteCount(p[k]) == c[k].size
    decreases len
  {
    if len > 0 {
      var room := 4096 - addr % 4096;
      var size := if room < len then room else len;
      PrdtIsChunks(addr + size, len - size, virtToPhys);
      var p, c := PrdtFor(addr, len, virtToPhys).value, Chunks(addr, len);
      forall k | 0 <= k < |c| ensures c[k].addr in virtToPhys && p[k].dba == virtToPhys[c[k].addr] &&
          ByteCount(p[k]) == c[k].size {
        if k > 0 {
          assert c[k] == Chunks(addr + size, len - size)[k - 1];
        }
      }
    }
  }

  function Prepend(done: seq<Prdt>, rest: Option<seq<Prdt>>): Option<seq<Prdt>> {
    if rest.None? then None else Some(done + rest.value)
  }

  lemma PrependOne(done: seq<Prdt>, p: Prdt, rest: Option<seq<Prdt>>)
    ensures Prepend(done + [p], rest) == Prepend(done, if rest.None? then None else Some([p] + rest.value))
  {
    if rest.Some? {
      assert done + [p] + rest.value == done + ([p] + rest.value);
    }
  }

  /** Fills the command's descriptor table for the buffer of `len` bytes at `addr`. The table
      never overflows, so its size check cannot fire. */
  method BuildPrdt(table: array<Prdt>, addr: nat, len: nat, virtToPhys: map<nat, nat>) returns (r: Result<nat>)
    requires table.Length == PRDT_ENTRIES
    modifies table
    ensures len > 32768 ==> r == Err(BufferTooLarge)
    ensures len <= 32768 ==>
              var want := PrdtFor(addr, len, virtToPhys);
              if want.None? then r == Err(AddressTranslationFailed)
              else r == Ok(|Chunks(addr, len)|) && r.value <= PRDT_ENTRIES && table[..r.value] == want.value
  {
    hide Chunks, PrdtFor, DescriptorFor, Prepend;
    if len == 0 {
      NothingToDescribe(addr, virtToPhys);
      return Ok(0);
    }
    if len > MAX_TRANSFER_BYTES {
      return Err(BufferTooLarge);
    }
    NineSuffice(addr, len);
    ghost var want, done: seq<Prdt> := PrdtFor(addr, len, virtToPhys), [];
    var count, offset := 0, 0;
    PrependNone(want);
    while offset < len
      invariant offset <= len && count + |Chunks(addr + offset, len - offset)| == |Chunks(addr, len)|
      invariant count <= PRDT_ENTRIES && table[..count] == done
      invariant want == Prepend(done, PrdtFor(addr + offset, len - offset, virtToPhys))
    {
      var virt := addr + offset;
      var pageOff := virt % 4096;
      var chunk := if 4096 - pageOff < len - offset then 4096 - pageOff else len - offset;
      ChunksUnfold(virt, len - offset, chunk);
      PrdtUnfold(virt, len - offset, chunk, virtToPhys);
      if virt !in virtToPhys {
        PrependLast(done);
        return Err(AddressTranslationFailed);
      }
      table[count] := DescriptorFor(virtToPhys[virt], chunk);
      PrependOne(done, table[count], PrdtFor(virt + chunk, len - offset - chunk, virtToPhys));
      done := done + [table[count]];
      offset := offset + chunk;
      count := count + 1;
    }
    NothingToDescribe(addr + len, virtToPhys);
    PrependLast(done);
    r := Ok(count);
  }

  lemma PrependNone(rest: Option<seq<Prdt>>)
    ensures Prepend([], rest) == rest
  {
    assert rest.Some? ==> [] + rest.value == rest.value;
  }

  lemma PrependLast(done: seq<Prdt>)
    ensures Prepend(done, None) == None && Prepend(done, Some([])) == Some(done)
  {
    assert done + [] == done;
  }

  lemma PrdtUnfold(addr: nat, len: nat, size: nat, virtToPhys: map<nat, nat>)
    requires len > 0 && size == (if 4096 - addr % 4096 < len then 4096 - addr % 4096 else len)
    ensures addr !in virtToPhys ==> PrdtFor(addr, len, virtToPhys).None?
    ensures addr in virtToPhys ==>
              var rest := PrdtFor(addr + size, len - size, virtToPhys);
              PrdtFor(addr, len, virtToPhys) ==
              if rest.None? then None else Some([DescriptorFor(virtToPhys[addr], size)] + rest.value)
  {
  }

  lemma NothingToDescribe(addr: nat, virtToPhys: map<nat, nat>)
    ensures Chunks(addr, 0) == [] && PrdtFor(addr, 0, virtToPhys) == Some([])
  {
  }

  // ---------------------------------------------------------------------------
  // What the descriptors move
  // ---------------------------------------------------------------------------

  /** The whole buffer has physical addresses. */
  ghost predicate Mapped(virtToPhys: map<nat, nat>, addr: nat, len: nat) {
    forall a :: addr <= a < addr + len ==> a in virtToPhys
  }

  /** Translation works page by page: it is linear inside a page. */
  ghost predicate PageLinear(virtToPhys: map<nat, nat>, addr: nat, len: nat) {
    forall a, b :: addr <= a < addr + len && addr <= b < addr + len && a / 4096 == b / 4096 && a in virtToPhys ==>
      b in virtToPhys && virtToPhys[b] == virtToPhys[a] + (b - a)
  }

  /** The physical addresses behind a buffer, in order. */
  ghost function PhysOf(virtToPhys: map<nat, nat>, addr: nat, len: nat): (at: seq<nat>)
    requires Mapped(virtToPhys, addr, len)
    ensures |at| == len
  {
    seq(len, i requires 0 <= i < len => virtToPhys[addr + i])
  }

  /** The physical addresses a list of descriptors visits, in order. */
  function Visited(p: seq<Prdt>): seq<nat> {
    if p == [] then [] else seq(ByteCount(p[0]), i requires 0 <= i => p[0].dba + i) + Visited(p[1..])
  }

  /** Inside one page the bytes behind the buffer are consecutive. */
  lemma PieceVisits(virtToPhys: map<nat, nat>, addr: nat, len: nat, size: nat)
    requires PageLinear(virtToPhys, addr, len) && addr in virtToPhys
    requires size <= len && addr % 4096 + size <= 4096
    ensures Mapped(virtToPhys, addr, size)
    ensures PhysOf(virtToPhys, addr, size) == seq(size, i requires 0 <= i => virtToPhys[addr] + i)
  {
    forall a | addr <= a < addr + size ensures a in virtToPhys && virtToPhys[a] == virtToPhys[addr] + (a - addr) {
      assert a / 4096 == addr / 4096;
    }
  }

  lemma PageLinearRest(virtToPhys: map<nat, nat>, addr: nat, len: nat, size: nat)
    requires PageLinear(virtToPhys, addr, len) && size <= len
    ensures PageLinear(virtToPhys, addr + size, len - size)
  {
  }

  /** Whenever the table can be built, the whole buffer is mapped and the controller visits
      exactly the physical bytes behind it, in order. */
  lemma {:induction false} PrdtVisitsBuffer(addr: nat, len: nat, virtToPhys: map<nat, nat>)
    requires PageLinear(virtToPhys, addr, len) && PrdtFor(addr, len, virtToPhys).Some?
    ensures Mapped(virtToPhys, addr, len)
    ensures Visited(PrdtFor(addr, len, virtToPhys).value) == PhysOf(virtToPhys, addr, len)
    decreases len
  {
    hide PageLinear, PhysOf, Visited, Mapped;
    if len == 0 {
      NothingVisited(addr, virtToPhys);
    } else {
      var room := 4096 - addr % 4096;
      var size := if room < len then room else len;
      PageLinearRest(virtToPhys, addr, len, size);
      PrdtVisitsBuffer(addr + size, len - size, virtToPhys);
      PieceVisits(virtToPhys, addr, len, size);
      VisitedMore(DescriptorFor(virtToPhys[addr], size), PrdtFor(addr + size, len - size, virtToPhys).value, size);
      PhysOfSplit(virtToPhys, addr, size, len - size);
    }
  }

  lemma NothingVisited(addr: nat, virtToPhys: map<nat, nat>)
    ensures Mapped(virtToPhys, addr, 0) && Visited([]) == PhysOf(virtToPhys, addr, 0)
  {
  }

  lemma VisitedMore(d: Prdt, rest: seq<Prdt>, size: nat)
    requires ByteCount(d) == size
    ensures Visited([d] + rest) == seq(size, i requires 0 <= i => d.dba + i) + Visited(rest)
  {
    assert ([d] + rest)[1..] == rest;
  }

  lemma PhysOfSplit(virtToPhys: map<nat, nat>, addr: nat, m: nat, n: nat)
    requires Mapped(virtToPhys, addr, m) && Mapped(virtToPhys, addr + m, n)
    ensures Mapped(virtToPhys, addr, m + n)
    ensures PhysOf(virtToPhys, addr, m + n) == PhysOf(virtToPhys, addr, m) + PhysOf(virtToPhys, addr + m, n)
  {
  }

  // ---------------------------------------------------------------------------
  // Memory and disk
  // ---------------------------------------------------------------------------

  /** Memory after the bytes `data` are stored at the addresses `at`, first to last. */
  function Scatter(ram: map<nat, Byte>, at: seq<nat>, data: seq<Byte>): map<nat, Byte>
    requires |at| == |data|
  {
    if at == [] then ram
    else
      var n := |at| - 1;
      Scatter(ram, at[..n], data[..n])[at[n] := data[n]]
  }

  /** The bytes at the addresses `at`. */
  function Gather(ram: map<nat, Byte>, at: seq<nat>): seq<Byte>
    requires forall k :: 0 <= k < |at| ==> at[k] in ram
  {
    seq(|at|, k requires 0 <= k < |at| => ram[at[k]])
  }

  lemma {:induction false} ScatterMore(ram: map<nat, Byte>, a: seq<nat>, d: seq<Byte>, a2: seq<nat>, d2: seq<Byte>)
    requires |a| == |d| && |a2| == |d2|
    ensures Scatter(Scatter(ram, a, d), a2, d2) == Scatter(ram, a + a2, d + d2)
    decreases |a2|
  {
    if a2 == [] {
      assert a + a2 == a && d + d2 == d;
    } else {
      var n := |a2| - 1;
      ScatterMore(ram, a, d, a2[..n], d2[..n]);
      assert (a + a2)[..|a| + n] == a + a2[..n] && (d + d2)[..|a| + n] == d + d2[..n];
    }
  }

  /** Distinct addresses hold what was stored there and every other address keeps its byte. */
  lemma {:induction false} ScatterAt(ram: map<nat, Byte>, at: seq<nat>, data: seq<Byte>)
    requires |at| == |data|
    requires forall i, j :: 0 <= i < j < |at| ==> at[i] != at[j]
    ensures forall k :: 0 <= k < |at| ==> at[k] in Scatter(ram, at, data)
    ensures Gather(Scatter(ram, at, data), at) == data
    ensures forall x :: x !in at ==>
            (x in Scatter(ram, at, data) <==> x in ram) && (x in ram ==> Scatter(ram, at, data)[x] == ram[x])
    decreases |at|
  {
    if at != [] {
      var n := |at| - 1;
      ScatterAt(ram, at[..n], data[..n]);
      var before := Scatter(ram, at[..n], data[..n]);
      assert Gather(before, at[..n]) == data[..n];
      forall k | 0 <= k < |at| ensures at[k] in Scatter(ram, at, data) && Scatter(ram, at, data)[at[k]] == data[k] {
        if k < n {
          assert at[..n][k] in before && before[at[..n][k]] == Gather(before, at[..n])[k];
        }
      }
    }
  }

  /** `s` with `piece` written over it at `at`. */
  function Copied(s: seq<Byte>, at: nat, piece: seq<Byte>): (r: seq<Byte>)
    requires at + |piece| <= |s|
    ensures |r| == |s|
  {
    s[..at] + piece + s[at + |piece|..]
  }

  /** Two adjacent copies are one copy. */
  lemma CopiedMore(s: seq<Byte>, at: nat, d: seq<Byte>, d2: seq<Byte>)
    requires at + |d| + |d2| <= |s|
    ensures Copied(Copied(s, at, d), at + |d|, d2) == Copied(s, at, d + d2)
  {
    var c := Copied(s, at, d);
    assert c[..at + |d|] == s[..at] + d;
    assert c[at + |d| + |d2|..] == s[at + |d| + |d2|..];
  }

  // ---------------------------------------------------------------------------
  // Commands
  // ---------------------------------------------------------------------------

  /** The six address bytes of the command. */
  function PackLba(lba: nat): seq<nat> {
    [lba % 256, lba / 0x100 % 256, lba / 0x1_0000 % 256, lba / 0x100_0000 % 256, lba / 0x1_0000_0000 % 256,
     lba / 0x100_0000_0000 % 256]
  }

  /** The sector the device reads from them. */
  function UnpackLba(b: seq<nat>): nat
    requires |b| == 6
  {
    b[0] + 0x100 * b[1] + 0x1_0000 * b[2] + 0x100_0000 * b[3] + 0x1_0000_0000 * b[4] + 0x100_0000_0000 * b[5]
  }

  /** The device sees the low 48 bits of the sector address: the address itself exactly when it
      is below 2^48. */
  lemma PackedLba(lba: nat)
    ensures UnpackLba(PackLba(lba)) == lba % LBA_LIMIT
    ensures UnpackLba(PackLba(lba)) == lba <==> lba < LBA_LIMIT
  {
    var a0, a1, a2, a3, a4, a5 := lba, lba / 0x100, lba / 0x1_0000, lba / 0x100_0000, lba / 0x1_0000_0000,
        lba / 0x100_0000_0000;
    assert a1 / 256 == a2 && a2 / 256 == a3 && a3 / 256 == a4 && a4 / 256 == a5;
    var q := a5 / 256;
    assert lba == UnpackLba(PackLba(lba)) + LBA_LIMIT * q;
  }

  /** The two count bytes of the command, and the count the device reads from them. */
  function PackCount(sectors: nat): seq<nat> {
    [sectors % 256, sectors / 256 % 256]
  }

  function UnpackCount(b: seq<nat>): nat
    requires |b| == 2
  {
    b[0] + 256 * b[1]
  }

  /** Sixteen bits of the sector count reach the device. */
  lemma PackedCount(sectors: nat)
    ensures UnpackCount(PackCount(sectors)) == sectors % 0x1_0000
    ensures UnpackCount(PackCount(sectors)) == sectors <==> sectors < 0x1_0000
  {
    assert sectors == sectors % 256 + 256 * (sectors / 256 % 256) + 0x1_0000 * (sectors / 256 / 256);
  }

  /** A buffer as the driver is given it: every mapped byte is ordinary memory. */
  ghost predicate Buffer(virtToPhys: map<nat, nat>, ram: map<nat, Byte>, addr: nat, len: nat) {
    && PageLinear(virtToPhys, addr, len)
    && forall a :: addr <= a < addr + len && a in virtToPhys ==> virtToPhys[a] in ram
  }

  /** One transfer of the first `n` bytes of the buffer at `addr`, to or from the disk's bytes at
      `base`: everything else on the disk and in memory is as it was. */
  ghost predicate Transferred(write: bool, disk0: seq<Byte>, ram0: map<nat, Byte>, disk: seq<Byte>, ram: map<nat, Byte>,
                              virtToPhys: map<nat, nat>, base: nat, addr: nat, n: nat) {
    && Mapped(virtToPhys, addr, n) && base + n <= |disk0|
    && var at := PhysOf(virtToPhys, addr, n);
       if write then
         && ram == ram0
         && (forall k :: 0 <= k < |at| ==> at[k] in ram0)
         && disk == Copied(disk0, base, Gather(ram0, at))
       else
         disk == disk0 && ram == Scatter(ram0, at, disk0[base..base + n])
  }

  lemma TransferNone(write: bool, disk: seq<Byte>, ram: map<nat, Byte>, virtToPhys: map<nat, nat>, base: nat, addr: nat)
    requires base <= |disk|
    ensures Transferred(write, disk, ram, disk, ram, virtToPhys, base, addr, 0)
  {
    assert disk[base..base + 0] == [];
  }

  /** Two adjacent transfers are one transfer. */
  lemma TransferMore(write: bool, disk0: seq<Byte>, ram0: map<nat, Byte>, disk1: seq<Byte>, ram1: map<nat, Byte>,
                     disk: seq<Byte>, ram: map<nat, Byte>, virtToPhys: map<nat, nat>, base: nat, addr: nat, m: nat,
                         n: nat)
    requires Transferred(write, disk0, ram0, disk1, ram1, virtToPhys, base, addr, m)
    requires Transferred(write, disk1, ram1, disk, ram, virtToPhys, base + m, addr + m, n)
    ensures Transferred(write, disk0, ram0, disk, ram, virtToPhys, base, addr, m + n)
  {
    hide PhysOf, Scatter, Copied;
    PhysOfSplit(virtToPhys, addr, m, n);
    var a, a2, at := PhysOf(virtToPhys, addr, m), PhysOf(virtToPhys, addr + m, n), PhysOf(virtToPhys, addr, m + n);
    if write {
      assert forall k :: 0 <= k < |at| ==> at[k] == (if k < m then a[k] else a2[k - m]);
      assert Gather(ram0, at) == Gather(ram0, a) + Gather(ram0, a2);
      CopiedMore(disk0, base, Gather(ram0, a), Gather(ram0, a2));
    } else {
      assert disk0[base..base + (m + n)] == disk0[base..base + m] + disk0[base + m..base + m + n];
      ScatterMore(ram0, a, disk0[base..base + m], a2, disk0[base + m..base + m + n]);
    }
  }

  lemma {:induction false} ScatterKeys(ram: map<nat, Byte>, at: seq<nat>, data: seq<Byte>)
    requires |at| == |data|
    ensures ram.Keys <= Scatter(ram, at, data).Keys
    decreases |at|
  {
    if at != [] {
      ScatterKeys(ram, at[..|at| - 1], data[..|at| - 1]);
    }
  }

  lemma TransferKeeps(write: bool, disk0: seq<Byte>, ram0: map<nat, Byte>, disk: seq<Byte>, ram: map<nat, Byte>,
                      virtToPhys: map<nat, nat>, base: nat, addr: nat, n: nat, buf: nat, len: nat)
    requires Transferred(write, disk0, ram0, disk, ram, virtToPhys, base, addr, n)
    requires Buffer(virtToPhys, ram0, buf, len)
    ensures |disk| == |disk0| && Buffer(virtToPhys, ram, buf, len)
  {
    if !write {
      ScatterKeys(ram0, PhysOf(virtToPhys, addr, n), disk0[base..base + n]);
    }
  }

  /** After a transfer the buffer and the disk hold the same bytes, when the buffer's bytes are
      distinct bytes of memory. A read leaves the disk and the rest of memory alone; a write
      leaves memory and the rest of the disk alone. */
  lemma TransferMeaning(write: bool, disk0: seq<Byte>, ram0: map<nat, Byte>, disk: seq<Byte>, ram: map<nat, Byte>,
                        virtToPhys: map<nat, nat>, base: nat, addr: nat, n: nat)
    requires Transferred(write, disk0, ram0, disk, ram, virtToPhys, base, addr, n)
    requires forall a, b :: addr <= a < b < addr + n && a in virtToPhys && b in virtToPhys ==>
             virtToPhys[a] != virtToPhys[b]
    ensures |disk| == |disk0| && base + n <= |disk|
    ensures var at := PhysOf(virtToPhys, addr, n); forall i :: 0 <= i < n ==>
            at[i] in ram && ram[at[i]] == disk[base + i]
    ensures write ==> ram == ram0 && disk[..base] == disk0[..base] && disk[base + n..] == disk0[base + n..]
    ensures !write ==>
              && disk == disk0
              && forall x :: x !in PhysOf(virtToPhys, addr, n) ==>
                  (x in ram <==> x in ram0) && (x in ram ==> ram[x] == ram0[x])
  {
    hide Gather, Scatter, Copied;
    var at := PhysOf(virtToPhys, addr, n);
    assert forall i, j :: 0 <= i < j < |at| ==> at[i] != at[j];
    if write {
      GatherAt(ram0, at);
      CopiedAt(disk0, base, Gather(ram0, at));
    } else {
      ScatterAt(ram0, at, disk0[base..base + n]);
      GatherAt(ram, at);
    }
  }

  lemma GatherAt(ram: map<nat, Byte>, at: seq<nat>)
    requires forall k :: 0 <= k < |at| ==> at[k] in ram
    ensures |Gather(ram, at)| == |at| && forall k :: 0 <= k < |at| ==> Gather(ram, at)[k] == ram[at[k]]
  {
  }

  lemma CopiedAt(s: seq<Byte>, at: nat, piece: seq<Byte>)
    requires at + |piece| <= |s|
    ensures var c := Copied(s, at, piece);
            && c[..at] == s[..at] && c[at + |piece|..] == s[at + |piece|..]
            && forall i :: 0 <= i < |piece| ==> c[at + i] == piece[i]
  {
  }

  /** The bytes of the next command when `done` of `len` bytes have been moved. */
  function CommandBytes(len: nat, done: nat): nat {
    if len <= done then 0 else if len - done < MAX_TRANSFER_BYTES then len - done else MAX_TRANSFER_BYTES
  }

  /** Command `j` of a transfer succeeds: the device does not fail it, and its part of the buffer has
      physical addresses. */
  ghost predicate CommandOk(virtToPhys: map<nat, nat>, fault: Option<nat>, addr: nat, len: nat, j: nat) {
    fault != Some(j) && PrdtFor(addr + j * MAX_TRANSFER_BYTES, CommandBytes(len, j * MAX_TRANSFER_BYTES),
                                virtToPhys).Some?
  }

  /** A transfer stops before its first command that does not succeed. */
  ghost predicate Stops(virtToPhys: map<nat, nat>, fault: Option<nat>, addr: nat, len: nat, moved: nat) {
    exists j: nat ::
      && !CommandOk(virtToPhys, fault, addr, len, j) && moved == j * MAX_TRANSFER_BYTES < len
      && forall i: nat :: i < j ==> CommandOk(virtToPhys, fault, addr, len, i)
  }

  lemma CommandStart(k: nat, len: nat, done: nat)
    requires done == k * MAX_TRANSFER_BYTES && done < len && len % SECTOR_SIZE == 0
    ensures CommandBytes(len, done) % SECTOR_SIZE == 0 && 0 < CommandBytes(len, done) <= MAX_TRANSFER_BYTES
    ensures done + CommandBytes(len, done) < len ==> done + CommandBytes(len, done) == (k + 1) * MAX_TRANSFER_BYTES
    ensures done + CommandBytes(len, done) <= len
    ensures done + CommandBytes(len, done) == len ==> len <= (k + 1) * MAX_TRANSFER_BYTES
    ensures CommandBytes(len, done) / SECTOR_SIZE % 0x1_0000 * SECTOR_SIZE == CommandBytes(len, done)
  {
    var n := len / SECTOR_SIZE;
    assert len == SECTOR_SIZE * n && done == SECTOR_SIZE * (64 * k);
    var left := if n - 64 * k < 64 then n - 64 * k else 64;
    assert CommandBytes(len, done) == SECTOR_SIZE * left;
    WholeSectors(left);
  }

  lemma WholeSectors(n: nat)
    requires n <= 64
    ensures SECTOR_SIZE * n % SECTOR_SIZE == 0 &&
            SECTOR_SIZE * n / SECTOR_SIZE % 0x1_0000 * SECTOR_SIZE == SECTOR_SIZE * n
  {
  }

  lemma CommandIs(virtToPhys: map<nat, nat>, fault: Option<nat>, addr: nat, len: nat, k: nat, done: nat)
    requires done == k * MAX_TRANSFER_BYTES
    ensures CommandOk(virtToPhys, fault, addr, len, k) <==>
            fault != Some(k) && PrdtFor(addr + done, CommandBytes(len, done), virtToPhys).Some?
  {
  }

  /** A port with a SATA disk behind it, and the machine's memory. */
  class Port {
    var disk: seq<Byte>
    var ram: map<nat, Byte>

    /** One command for a buffer of `sectors` sectors: the descriptors are built, and the device moves
        as many sectors as the count bytes say between the disk, from the sector the address bytes say
        on, and the memory the descriptors name. */
    method IssueCommand(table: array<Prdt>, virtToPhys: map<nat, nat>, fails: bool, lba: nat, sectors: nat, write: bool,
                        addr: nat, len: nat)
      returns (r: Result<nat>)
      requires table.Length == PRDT_ENTRIES && Buffer(virtToPhys, ram, addr, len)
      requires len == sectors * SECTOR_SIZE <= MAX_TRANSFER_BYTES && lba * SECTOR_SIZE + len <= |disk| &&
               lba < LBA_LIMIT
      modifies this, table
      ensures r.Ok? <==> PrdtFor(addr, len, virtToPhys).Some? && !fails
      ensures r.Err? ==> disk == old(disk) && ram == old(ram)
      ensures r.Ok? ==> Transferred(write, old(disk), old(ram), disk, ram, virtToPhys, lba * SECTOR_SIZE, addr, len)
    {
      hide Scatter, Visited, PageLinear;
      var built := BuildPrdt(table, addr, len, virtToPhys);
      if built.Err? {
        return Err(built.error);
      }
      if fails {
        return Err(CommandFailed);
      }
      PrdtVisitsBuffer(addr, len, virtToPhys);
      PackedLba(lba);
      PackedCount(sectors);
      var start := UnpackLba(PackLba(lba)) * SECTOR_SIZE;
      var n := UnpackCount(PackCount(sectors)) * SECTOR_SIZE;
      var at := Visited(table[..built.value]);
      assert at[..n] == at;
      if write {
        disk := Copied(disk, start, Gather(ram, at[..n]));
      } else {
        ram := Scatter(ram, at[..n], disk[start..start + n]);
      }
      r := Ok(len);
    }

    /** Moves a buffer of whole sectors in as many commands as it takes; `fault` is the index of
        the command the device fails, if any. The commands together do what one transfer would:
        of the whole buffer, or when a command fails of the part before it. */
    method RwSectors(table: array<Prdt>, virtToPhys: map<nat, nat>, isSata: bool, fault: Option<nat>, lba: nat,
                     write: bool, addr: nat, len: nat)
      returns (r: Result<nat>, ghost moved: nat)
      requires table.Length == PRDT_ENTRIES && Buffer(virtToPhys, ram, addr, len)
      requires lba * SECTOR_SIZE + len <= |disk| <= LBA_LIMIT * SECTOR_SIZE
      modifies this, table
      ensures Transferred(write, old(disk), old(ram), disk, ram, virtToPhys, lba * SECTOR_SIZE, addr, moved)
      ensures !isSata ==> r == Err(DeviceNotAta) && moved == 0
      ensures isSata && (len == 0 || len % SECTOR_SIZE != 0) ==> r == Err(BufferNotSectorAligned) && moved == 0
      ensures isSata && len > 0 && len % SECTOR_SIZE == 0 ==>
                && (r.Ok? <==> forall j: nat :: j * MAX_TRANSFER_BYTES < len ==>
                    CommandOk(virtToPhys, fault, addr, len, j))
                && (r.Ok? ==> moved == len)
                && (r.Err? ==> Stops(virtToPhys, fault, addr, len, moved))
    {
      hide Transferred, Buffer, PrdtFor, CommandBytes, CommandOk;
      ghost var disk0, ram0, base := disk, ram, lba * SECTOR_SIZE;
      TransferNone(write, disk, ram, virtToPhys, base, addr);
      moved := 0;
      if !isSata {
        return Err(DeviceNotAta), 0;
      }
      if len == 0 || len % SECTOR_SIZE != 0 {
        return Err(BufferNotSectorAligned), 0;
      }
      var done, curLba, k := 0, lba, 0;
      while done < len
        invariant done <= len && done % SECTOR_SIZE == 0 && curLba * SECTOR_SIZE == base + done
        invariant if done < len then done == k * MAX_TRANSFER_BYTES else len <= k * MAX_TRANSFER_BYTES
        invariant forall i: nat :: i < k ==> CommandOk(virtToPhys, fault, addr, len, i)
        invariant |disk| == |disk0| && Buffer(virtToPhys, ram, addr, len)
        invariant Transferred(write, disk0, ram0, disk, ram, virtToPhys, base, addr, done)
      {
        CommandStart(k, len, done);
        var chunkLen := CommandBytes(len, done);
        var sectors := chunkLen / SECTOR_SIZE % 0x1_0000;
        ghost var disk1, ram1 := disk, ram;
        BufferPart(virtToPhys, ram, addr, len, done, chunkLen);
        var issued := IssueCommand(table, virtToPhys, fault == Some(k), curLba, sectors, write, addr + done, chunkLen);
        CommandIs(virtToPhys, fault, addr, len, k, done);
        if issued.Err? {
          return Err(issued.error), done;
        }
        TransferKeeps(write, disk1, ram1, disk, ram, virtToPhys, base + done, addr + done, chunkLen, addr, len);
        TransferMore(write, disk0, ram0, disk1, ram1, disk, ram, virtToPhys, base, addr, done, chunkLen);
        done := done + chunkLen;
        curLba := curLba + sectors;
        k := k + 1;
      }
      r, moved := Ok(done), done;
    }
  }

  lemma BufferPart(virtToPhys: map<nat, nat>, ram: map<nat, Byte>, addr: nat, len: nat, done: nat, n: nat)
    requires Buffer(virtToPhys, ram, addr, len) && done + n <= len
    ensures Buffer(virtToPhys, ram, addr + done, n)
  {
  }
}
