/** Block devices and FAT32 file reading over cluster chains. */
module Fat32 {
  import opened Basics

  const SECTOR_SIZE: nat := 512

  datatype Result<T> = Ok(value: T) | Err

  // ---------------------------------------------------------------------------
  // Block devices
  // ---------------------------------------------------------------------------

  /** A RAM disk, or a partition that shifts every access of an inner device. */
  datatype Disk = Ram(data: seq<Byte>) | Partition(inner: Disk, lbaOffset: nat)

  function ReadSector(d: Disk, id: nat): (r: Result<seq<Byte>>)
    ensures r.Ok? ==> |r.value| == SECTOR_SIZE
  {
    match d
    case Ram(data) =>
      var start := id * SECTOR_SIZE;
      if start + SECTOR_SIZE > |data| then Err else Ok(data[start..start + SECTOR_SIZE])
    case Partition(inner, off) => ReadSector(inner, id + off)
  }

  /** The disk that begins at sector `off` of a RAM disk. */
  function SubDisk(data: seq<Byte>, off: nat): Disk {
    if off * SECTOR_SIZE <= |data| then Ram(data[off * SECTOR_SIZE..]) else Ram([])
  }

  /** Reading through a partition offset is reading the sub-disk. */
  lemma PartitionIsSubDisk(data: seq<Byte>, off: nat, id: nat)
    ensures ReadSector(Partition(Ram(data), off), id) == ReadSector(SubDisk(data, off), id)
  {
    var start := (id + off) * SECTOR_SIZE;
    assert start == id * SECTOR_SIZE + off * SECTOR_SIZE;
    if start + SECTOR_SIZE <= |data| {
      assert data[off * SECTOR_SIZE..][id * SECTOR_SIZE..id * SECTOR_SIZE + SECTOR_SIZE] == data[start..start +
             SECTOR_SIZE];
    }
  }

  function WriteSector(d: Disk, id: nat, buf: seq<Byte>): Result<Disk>
    requires |buf| == SECTOR_SIZE
  {
    match d
    case Ram(data) =>
      var start := id * SECTOR_SIZE;
      if start + SECTOR_SIZE > |data| then Err else Ok(Ram(data[..start] + buf + data[start + SECTOR_SIZE..]))
    case Partition(inner, off) =>
      var r := WriteSector(inner, id + off, buf);
      if r.Err? then Err else Ok(Partition(r.value, off))
  }

  /** A sector that was written reads back, and no other sector changes. */
  lemma {:induction false} WriteThenRead(d: Disk, id: nat, buf: seq<Byte>, other: nat)
    requires |buf| == SECTOR_SIZE && WriteSector(d, id, buf).Ok?
    ensures ReadSector(WriteSector(d, id, buf).value, other) == if other == id then Ok(buf) else ReadSector(d, other)
  {
    match d {
      case Ram(data) =>
        var data' := WriteSector(d, id, buf).value.data;
        assert |data'| == |data|;
        var start := other * SECTOR_SIZE;
        if other < id {
          assert start + SECTOR_SIZE <= id * SECTOR_SIZE;
        } else if other > id {
          assert id * SECTOR_SIZE + SECTOR_SIZE <= start;
        }
        if start + SECTOR_SIZE <= |data| {
          forall i | 0 <= i < SECTOR_SIZE
            ensures data'[start..start + SECTOR_SIZE][i] == if other == id then buf[i]
                    else data[start..start + SECTOR_SIZE][i]
          {
          }
          assert other == id ==> data'[start..start + SECTOR_SIZE] == buf;
          assert other != id ==> data'[start..start + SECTOR_SIZE] == data[start..start + SECTOR_SIZE];
        }
      case Partition(inner, off) =>
        WriteThenRead(inner, id + off, buf, other + off);
    }
  }

  /** The RAM device in place. */
  class RamBlockDevice {
    var data: seq<Byte>

    constructor (sectors: nat)
      ensures data == seq(sectors * SECTOR_SIZE, i => 0)
    {
      data := seq(sectors * SECTOR_SIZE, i => 0);
    }

    method Read(id: nat) returns (r: Result<seq<Byte>>)
      ensures r == ReadSector(Ram(data), id)
    {
      var start := id * SECTOR_SIZE;
      var end := start + SECTOR_SIZE;
      if end > |data| {
        return Err;
      }
      r := Ok(data[start..end]);
    }

    method Write(id: nat, buf: seq<Byte>) returns (ok: bool)
      requires |buf| == SECTOR_SIZE
      modifies this
      ensures ok == WriteSector(Ram(old(data)), id, buf).Ok?
      ensures Ram(data) == if ok then WriteSector(Ram(old(data)), id, buf).value else Ram(old(data))
    {
      var start := id * SECTOR_SIZE;
      var end := start + SECTOR_SIZE;
      if end > |data| {
        return false;
      }
      data := data[..start] + buf + data[end..];
      ok := true;
    }
  }

  // ---------------------------------------------------------------------------
  // Geometry
  // ---------------------------------------------------------------------------

  datatype Geometry = Geometry(sectorsPerCluster: nat, firstFatSector: nat, firstDataSector: nat, rootCluster: nat)

  function Mount(d: Disk): Result<Geometry> {
    hide Le;
    var boot := ReadSector(d, 0);
    if boot.Err? then Err
    else
      var b := boot.value;
      if b[510] != 0x55 || b[511] != 0xAA then Err
      else if Le(b, 11, 2) != SECTOR_SIZE then Err
      else if Le(b, 36, 4) == 0 then Err
      else
        var firstFat := Le(b, 14, 2);
        Ok(Geometry(b[13] as int, firstFat, firstFat + (b[16] as int) * Le(b, 36, 4), Le(b, 44, 4)))
  }

  function ClusterSize(g: Geometry): nat {
    g.sectorsPerCluster * SECTOR_SIZE
  }

  const END_OF_CHAIN: nat := 0x0FFF_FFF8

  predicate DataCluster(cluster: nat) {
    2 <= cluster < END_OF_CHAIN
  }

  /** Of the 28-bit values of a FAT entry, those that name no data cluster are the two reserved ones and
      the eight end marks. */
  lemma EndMarks(cluster: nat)
    requires cluster < 0x1000_0000
    ensures !DataCluster(cluster) <==> cluster == 0 || cluster == 1 || cluster / 8 == 0x1FF_FFFF
  {
  }

  function ClusterToSector(g: Geometry, cluster: nat): nat
    requires cluster >= 2
  {
    g.firstDataSector + (cluster - 2) * g.sectorsPerCluster
  }

  /** The FAT entry of a cluster: four bytes, upper four bits ignored. */
  function NextCluster(d: Disk, g: Geometry, cluster: nat): Result<nat> {
    var fatOffset := cluster * 4 % 0x1_0000_0000;
    var sector := ReadSector(d, g.firstFatSector + fatOffset / SECTOR_SIZE);
    if sector.Err? then Err
    else
      assert fatOffset % SECTOR_SIZE + 4 <= SECTOR_SIZE by {
        assert fatOffset % 4 == 0;
      }
      Ok(Le(sector.value, fatOffset % SECTOR_SIZE, 4) % 0x1000_0000)
  }

  /** The sectors `start .. start + n` in order. */
  function Sectors(d: Disk, start: nat, n: nat): (r: Result<seq<Byte>>)
    ensures r.Ok? ==> |r.value| == n * SECTOR_SIZE
  {
    if n == 0 then Ok([])
    else
      var front := Sectors(d, start, n - 1);
      if front.Err? then Err
      else
        var last := ReadSector(d, start + n - 1);
        if last.Err? then Err else Ok(front.value + last.value)
  }

  function ClusterData(d: Disk, g: Geometry, cluster: nat): (r: Result<seq<Byte>>)
    requires cluster >= 2
    ensures r.Ok? ==> |r.value| == ClusterSize(g)
  {
    Sectors(d, ClusterToSector(g, cluster), g.sectorsPerCluster)
  }

  lemma {:induction false} SectorsFail(d: Disk, start: nat, n: nat, m: nat)
    requires n <= m && Sectors(d, start, n).Err?
    ensures Sectors(d, start, m).Err?
    decreases m
  {
    if n < m {
      SectorsFail(d, start, n, m - 1);
    }
  }

  /** Reads one cluster into a buffer sector by sector; a failed sector fails the cluster. */
  method ReadCluster(d: Disk, g: Geometry, cluster: nat, buf: array<Byte>) returns (ok: bool)
    requires cluster >= 2
    modifies buf
    ensures ok <==> buf.Length >= ClusterSize(g) && ClusterData(d, g, cluster).Ok?
    ensures ok ==> buf[..ClusterSize(g)] == ClusterData(d, g, cluster).value
  {
    if buf.Length < ClusterSize(g) {
      return false;
    }
    var start := ClusterToSector(g, cluster);
    for i := 0 to g.sectorsPerCluster
      invariant Sectors(d, start, i).Ok? && buf[..i * SECTOR_SIZE] == Sectors(d, start, i).value
    {
      var sector := ReadSector(d, start + i);
      if sector.Err? {
        assert Sectors(d, start, i + 1).Err?;
        SectorsFail(d, start, i + 1, g.sectorsPerCluster);
        return false;
      }
      assert (i + 1) * SECTOR_SIZE <= ClusterSize(g);
      CopySector(buf, i * SECTOR_SIZE, sector.value);
      assert buf[..(i + 1) * SECTOR_SIZE] == buf[..i * SECTOR_SIZE] + sector.value;
    }
    ok := true;
  }

  method CopySector(buf: array<Byte>, at: nat, sector: seq<Byte>)
    requires |sector| == SECTOR_SIZE && at + SECTOR_SIZE <= buf.Length
    modifies buf
    ensures buf[..at] == old(buf[..at])
    ensures buf[at..at + SECTOR_SIZE] == sector
  {
    for k := 0 to SECTOR_SIZE
      invariant buf[..at] == old(buf[..at])
      invariant buf[at..at + k] == sector[..k]
    {
      buf[at + k] := sector[k];
    }
    assert sector[..SECTOR_SIZE] == sector;
  }

  // ---------------------------------------------------------------------------
  // File contents
  // ---------------------------------------------------------------------------

  /** What the reading loop returns from a cluster with `remaining` bytes to go. */
  function FileBytes(d: Disk, g: Geometry, cluster: nat, remaining: nat): Result<seq<Byte>>
    requires g.sectorsPerCluster >= 1
    decreases remaining
  {
    if !DataCluster(cluster) then Ok([])
    else
      var data := ClusterData(d, g, cluster);
      if data.Err? then Err
      else if remaining <= ClusterSize(g) then Ok(data.value[..remaining])
      else
        var next := NextCluster(d, g, cluster);
        if next.Err? then Err
        else
          var rest := FileBytes(d, g, next.value, remaining - ClusterSize(g));
          if rest.Err? then Err else Ok(data.value + rest.value)
  }

  /** How many clusters a file of `size` bytes takes; an empty file still has its first one read. */
  function ClustersFor(size: nat, clusterSize: nat): nat
    requires clusterSize > 0
    decreases size
  {
    if size <= clusterSize then 1 else 1 + ClustersFor(size - clusterSize, clusterSize)
  }

  /** It is the size divided by the cluster size, rounded up, and at least one. */
  lemma {:induction false} ClustersForCovers(size: nat, clusterSize: nat)
    requires clusterSize > 0
    ensures var n := ClustersFor(size, clusterSize);
            n >= 1 && size <= n * clusterSize && (n > 1 ==> (n - 1) * clusterSize < size)
    decreases size
  {
    if size > clusterSize {
      ClustersForCovers(size - clusterSize, clusterSize);
      var n := ClustersFor(size - clusterSize, clusterSize);
      assert (n + 1) * clusterSize == n * clusterSize + clusterSize;
      assert n * clusterSize == (n - 1) * clusterSize + clusterSize;
    }
  }

  function After(content: seq<Byte>, r: Result<seq<Byte>>): Result<seq<Byte>> {
    if r.Err? then Err else Ok(content + r.value)
  }

  lemma AfterNothing(r: Result<seq<Byte>>)
    ensures After([], r) == r
  {
    assert r.Ok? ==> [] + r.value == r.value;
  }

  lemma AfterMore(content: seq<Byte>, d: Disk, g: Geometry, cluster: nat, remaining: nat)
    requires g.sectorsPerCluster >= 1 && DataCluster(cluster) && ClusterData(d, g, cluster).Ok?
    ensures var data := ClusterData(d, g, cluster).value;
            After(content, FileBytes(d, g, cluster, remaining)) ==
              if remaining <= ClusterSize(g) then Ok(content + data[..remaining])
              else if NextCluster(d, g, cluster).Err? then Err
              else After(content + data, FileBytes(d, g, NextCluster(d, g, cluster).value, remaining - ClusterSize(g)))
  {
    hide ClusterData, NextCluster;
    if remaining > ClusterSize(g) && NextCluster(d, g, cluster).Ok? {
      var rest := FileBytes(d, g, NextCluster(d, g, cluster).value, remaining - ClusterSize(g));
      if rest.Ok? {
        assert content + (ClusterData(d, g, cluster).value + rest.value) == content +
               ClusterData(d, g, cluster).value + rest.value;
      }
    }
  }

  /** `n` clusters can be followed from `cluster` before an end mark. */
  ghost predicate LongEnough(d: Disk, g: Geometry, cluster: nat, n: nat)
    decreases n
  {
    DataCluster(cluster) && (n > 1 ==>
                             NextCluster(d, g, cluster).Ok? &&
                                 LongEnough(d, g, NextCluster(d, g, cluster).value, n - 1))
  }

  /** How a chain of fewer than `left` data clusters ends: at an end mark, or at an unreadable entry. */
  ghost function ChainEnd(d: Disk, g: Geometry, cluster: nat, left: nat): Result<seq<Byte>>
    requires !LongEnough(d, g, cluster, left)
    decreases left
  {
    if !DataCluster(cluster) then Ok([])
    else if NextCluster(d, g, cluster).Err? then Err
    else ChainEnd(d, g, NextCluster(d, g, cluster).value, left - 1)
  }

  lemma ChainStep(d: Disk, g: Geometry, cluster: nat, left: nat)
    requires !LongEnough(d, g, cluster, left)
    ensures !DataCluster(cluster) ==> ChainEnd(d, g, cluster, left) == Ok([])
    ensures DataCluster(cluster) ==>
              var next := NextCluster(d, g, cluster);
              if next.Err? then ChainEnd(d, g, cluster, left) == Err
              else
                left > 0 && !LongEnough(d, g, next.value, left - 1) &&
                    ChainEnd(d, g, cluster, left) == ChainEnd(d, g, next.value, left - 1)
  {
    hide NextCluster;
  }

  /** Reads a file along its chain; `readCount` counts the clusters read. With zero sectors per
      cluster the loop ends only if the chain does, here after fewer than `left` clusters; it then
      returns nothing, or fails where the chain breaks off. */
  method ReadFileContent(d: Disk, g: Geometry, startCluster: nat, fileSize: nat, ghost left: nat)
    returns (r: Result<seq<Byte>>, readCount: nat)
    requires g.sectorsPerCluster == 0 && fileSize > 0 ==> !LongEnough(d, g, startCluster, left)
    ensures g.sectorsPerCluster >= 1 ==> r == FileBytes(d, g, startCluster, fileSize)
    ensures g.sectorsPerCluster >= 1 ==> readCount <= ClustersFor(fileSize, ClusterSize(g))
    ensures g.sectorsPerCluster == 0 ==> r == if fileSize == 0 then Ok([]) else ChainEnd(d, g, startCluster, left)
  {
    hide LongEnough, ChainEnd, NextCluster, ClusterData, FileBytes;
    var content := [];
    var current := startCluster;
    var clusterSize := ClusterSize(g);
    var buf := new Byte[clusterSize](i => 0);
    var remaining := fileSize;
    readCount := 0;
    ghost var ahead, plain := left, g.sectorsPerCluster >= 1;
    if plain {
      AfterNothing(FileBytes(d, g, startCluster, fileSize));
    }
    while DataCluster(current)
      invariant plain ==> FileBytes(d, g, startCluster, fileSize) == After(content, FileBytes(d, g, current, remaining))
      invariant plain ==> readCount + ClustersFor(remaining, clusterSize) <= ClustersFor(fileSize, clusterSize)
      invariant !plain ==> content == [] && remaining == fileSize && clusterSize == 0
      invariant !plain && fileSize > 0 ==>
                  !LongEnough(d, g, current, ahead) && ChainEnd(d, g, startCluster, left) == ChainEnd(d, g, current,
                      ahead)
      decreases if plain then remaining else ahead
    {
      NoSectors(d, g, current);
      if plain {
        FileStarts(d, g, current, remaining);
      } else if fileSize > 0 {
        ChainStep(d, g, current, ahead);
      }
      var ok := ReadCluster(d, g, current, buf);
      readCount := readCount + 1;
      if !ok {
        return Err, readCount;
      }
      var data := buf[..];
      assert data == ClusterData(d, g, current).value;
      if plain {
        AfterMore(content, d, g, current, remaining);
      }
      var count := if remaining <= clusterSize then remaining else clusterSize;
      content := content + data[..count];
      if remaining <= clusterSize {
        return Ok(content), readCount;
      }
      remaining := remaining - clusterSize;
      var next := NextCluster(d, g, current);
      if next.Err? {
        return Err, readCount;
      }
      current := next.value;
      ahead := if ahead == 0 then 0 else ahead - 1;
    }
    assert content + [] == content;
    if plain {
      FileStarts(d, g, current, remaining);
    } else if fileSize > 0 {
      ChainStep(d, g, current, ahead);
    }
    r := Ok(content);
  }

  lemma FileStarts(d: Disk, g: Geometry, cluster: nat, remaining: nat)
    requires g.sectorsPerCluster >= 1
    ensures !DataCluster(cluster) ==> FileBytes(d, g, cluster, remaining) == Ok([])
    ensures DataCluster(cluster) && ClusterData(d, g, cluster).Err? ==> FileBytes(d, g, cluster, remaining) == Err
  {
    hide ClusterData, NextCluster;
  }

  lemma NoSectors(d: Disk, g: Geometry, cluster: nat)
    requires cluster >= 2
    ensures g.sectorsPerCluster == 0 ==> ClusterData(d, g, cluster) == Ok([])
  {
  }

  // ---------------------------------------------------------------------------
  // Chains
  // ---------------------------------------------------------------------------

  /** `chain` is the list of clusters linked from its first, each readable. */
  ghost predicate Linked(d: Disk, g: Geometry, chain: seq<nat>) {
    && (forall i :: 0 <= i < |chain| ==> DataCluster(chain[i]) && ClusterData(d, g, chain[i]).Ok?)
    && (forall i :: 0 <= i < |chain| - 1 ==> NextCluster(d, g, chain[i]) == Ok(chain[i + 1]))
  }

  /** The clusters' bytes, one after the other. */
  ghost function Concatenated(d: Disk, g: Geometry, chain: seq<nat>): seq<Byte>
    requires forall i :: 0 <= i < |chain| ==> DataCluster(chain[i]) && ClusterData(d, g, chain[i]).Ok?
  {
    if chain == [] then []
    else
      assert DataCluster(chain[0]);
      ClusterData(d, g, chain[0]).value + Concatenated(d, g, chain[1..])
  }

  /** A file whose chain is long enough is its first bytes, exactly. */
  lemma {:induction false} FileIsChainPrefix(d: Disk, g: Geometry, chain: seq<nat>, size: nat)
    requires g.sectorsPerCluster >= 1 && Linked(d, g, chain)
    requires |chain| >= ClustersFor(size, ClusterSize(g))
    ensures |Concatenated(d, g, chain)| >= size
    ensures FileBytes(d, g, chain[0], size) == Ok(Concatenated(d, g, chain)[..size])
    decreases size
  {
    hide ClusterData, NextCluster;
    var first := ClusterData(d, g, chain[0]).value;
    var rest := chain[1..];
    assert forall i :: 0 <= i < |rest| ==> rest[i] == chain[i + 1];
    if size > ClusterSize(g) {
      assert NextCluster(d, g, chain[0]) == Ok(rest[0]);
      FileIsChainPrefix(d, g, rest, size - ClusterSize(g));
      assert (first + Concatenated(d, g, rest))[..size] == first + Concatenated(d, g, rest)[..size - ClusterSize(g)];
    } else {
      assert (first + Concatenated(d, g, rest))[..size] == first[..size];
    }
  }

  /** A read that succeeds is never longer than the file, and is as long as a nonempty file
      exactly when the chain does not end early. */
  lemma {:induction false} FullLengthIff(d: Disk, g: Geometry, cluster: nat, size: nat)
    requires g.sectorsPerCluster >= 1 && FileBytes(d, g, cluster, size).Ok?
    ensures |FileBytes(d, g, cluster, size).value| <= size
    ensures size > 0 ==> (|FileBytes(d, g, cluster, size).value| == size <==>
                          LongEnough(d, g, cluster, ClustersFor(size, ClusterSize(g))))
    decreases size
  {
    if DataCluster(cluster) && size > ClusterSize(g) {
      FullLengthIff(d, g, NextCluster(d, g, cluster).value, size - ClusterSize(g));
    }
  }

  lemma {:induction false} SameSectors(d: Disk, e: Disk, start: nat, n: nat)
    requires forall id :: ReadSector(d, id) == ReadSector(e, id)
    ensures Sectors(d, start, n) == Sectors(e, start, n)
  {
    if n > 0 {
      SameSectors(d, e, start, n - 1);
    }
  }

  lemma {:induction false} SameFile(d: Disk, e: Disk, g: Geometry, cluster: nat, size: nat)
    requires g.sectorsPerCluster >= 1 && forall id :: ReadSector(d, id) == ReadSector(e, id)
    ensures FileBytes(d, g, cluster, size) == FileBytes(e, g, cluster, size)
    decreases size
  {
    if DataCluster(cluster) {
      SameSectors(d, e, ClusterToSector(g, cluster), g.sectorsPerCluster);
      assert NextCluster(d, g, cluster) == NextCluster(e, g, cluster);
      hide NextCluster, Sectors, ReadSector;
      if size > ClusterSize(g) && NextCluster(d, g, cluster).Ok? {
        SameFile(d, e, g, NextCluster(d, g, cluster).value, size - ClusterSize(g));
      }
    }
  }

  /** A volume in a partition mounts and reads as the sub-disk would on its own. */
  lemma PartitionedVolume(data: seq<Byte>, off: nat, g: Geometry, cluster: nat, size: nat)
    requires g.sectorsPerCluster >= 1
    ensures Mount(Partition(Ram(data), off)) == Mount(SubDisk(data, off))
    ensures FileBytes(Partition(Ram(data), off), g, cluster, size) == FileBytes(SubDisk(data, off), g, cluster, size)
  {
    forall id ensures ReadSector(Partition(Ram(data), off), id) == ReadSector(SubDisk(data, off), id) {
      PartitionIsSubDisk(data, off, id);
    }
    SameFile(Partition(Ram(data), off), SubDisk(data, off), g, cluster, size);
  }

  /** The variables of the reading loop, and one round of it. */
  datatype Reader = Reader(cluster: nat, remaining: nat, content: seq<Byte>)

  function ReaderStep(d: Disk, g: Geometry, x: Reader): Option<Reader>
    requires DataCluster(x.cluster)
  {
    var data := ClusterData(d, g, x.cluster);
    if data.Err? || x.remaining <= ClusterSize(g) then None
    else
      var next := NextCluster(d, g, x.cluster);
      if next.Err? then None else Some(Reader(next.value, x.remaining - ClusterSize(g), x.content + data.value))
  }

  /** The reader after `n` rounds, if it gets that far. */
  function Rounds(d: Disk, g: Geometry, x: Reader, n: nat): Option<Reader>
    decreases n
  {
    if n == 0 then Some(x)
    else if !DataCluster(x.cluster) then None
    else
      var y := ReaderStep(d, g, x);
      if y.None? then None else Rounds(d, g, y.value, n - 1)
  }

  /** After `n` rounds the loop goes on. */
  predicate GoesOn(d: Disk, g: Geometry, x: Reader, n: nat) {
    Rounds(d, g, x, n).Some? && DataCluster(Rounds(d, g, x, n).value.cluster)
  }

  /** Without a sector per cluster nothing is ever consumed: the loop goes on as long as the chain. */
  lemma {:induction false} GoesOnIff(d: Disk, g: Geometry, x: Reader, n: nat)
    requires g.sectorsPerCluster == 0 && x.remaining > 0
    ensures GoesOn(d, g, x, n) <==> LongEnough(d, g, x.cluster, n + 1)
    decreases n
  {
    if n > 0 && DataCluster(x.cluster) {
      NoSectors(d, g, x.cluster);
      if NextCluster(d, g, x.cluster).Ok? {
        var y := ReaderStep(d, g, x).value;
        GoesOnIff(d, g, y, n - 1);
      }
    }
  }

  /** With a sector per cluster every further round has fewer bytes to go, */
  lemma NeverStuck(d: Disk, g: Geometry, x: Reader)
    requires DataCluster(x.cluster) && g.sectorsPerCluster >= 1
    ensures ReaderStep(d, g, x).Some? ==> ReaderStep(d, g, x).value.remaining < x.remaining
  {
  }

  /** so there are at most as many rounds as bytes. */
  lemma {:induction false} RoundsBounded(d: Disk, g: Geometry, x: Reader, n: nat)
    requires g.sectorsPerCluster >= 1 && n > x.remaining
    ensures Rounds(d, g, x, n).None?
    decreases n
  {
    if DataCluster(x.cluster) && ReaderStep(d, g, x).Some? {
      NeverStuck(d, g, x);
      RoundsBounded(d, g, ReaderStep(d, g, x).value, n - 1);
    }
  }

  /** The chain reaches an end mark or an unreadable entry. */
  ghost predicate ChainEnds(d: Disk, g: Geometry, cluster: nat) {
    exists n: nat :: !LongEnough(d, g, cluster, n)
  }

  lemma {:induction false} LongerIsEnough(d: Disk, g: Geometry, cluster: nat, n: nat)
    requires LongEnough(d, g, cluster, n + 1)
    ensures LongEnough(d, g, cluster, n)
    decreases n
  {
    if n > 1 {
      LongerIsEnough(d, g, NextCluster(d, g, cluster).value, n - 1);
    }
  }

  /** The reading loop ends if and only if clusters have sectors, or there is nothing to read, or the
      chain ends. */
  lemma ReadEndsIff(d: Disk, g: Geometry, x: Reader)
    ensures (exists n: nat :: !GoesOn(d, g, x, n)) <==>
            g.sectorsPerCluster >= 1 || x.remaining == 0 || ChainEnds(d, g, x.cluster)
  {
    hide ReaderStep, Rounds, LongEnough;
    if g.sectorsPerCluster >= 1 {
      RoundsBounded(d, g, x, x.remaining + 1);
      assert !GoesOn(d, g, x, x.remaining + 1);
    } else if x.remaining == 0 {
      NothingToRead(d, g, x);
      assert !GoesOn(d, g, x, 1);
    } else {
      if n: nat :| !LongEnough(d, g, x.cluster, n) {
        if LongEnough(d, g, x.cluster, n + 1) {
          LongerIsEnough(d, g, x.cluster, n);
        }
        GoesOnIff(d, g, x, n);
        assert !GoesOn(d, g, x, n);
      }
      if n: nat :| !GoesOn(d, g, x, n) {
        GoesOnIff(d, g, x, n);
        assert !LongEnough(d, g, x.cluster, n + 1);
      }
    }
  }

  lemma NothingToRead(d: Disk, g: Geometry, x: Reader)
    requires x.remaining == 0
    ensures Rounds(d, g, x, 1).None?
  {
  }

  /** Every cluster of `cycle` is a data cluster linked to one of `cycle`. */
  ghost predicate Closed(d: Disk, g: Geometry, cycle: set<nat>) {
    forall c :: c in cycle ==> DataCluster(c) && NextCluster(d, g, c).Ok? && NextCluster(d, g, c).value in cycle
  }

  /** A chain that enters a cycle, of whatever length, never ends. */
  lemma {:induction false} CycleNeverEnds(d: Disk, g: Geometry, cycle: set<nat>, a: nat)
    requires Closed(d, g, cycle) && a in cycle
    ensures !ChainEnds(d, g, a)
  {
    forall n: nat ensures LongEnough(d, g, a, n) {
      CycleGoesOn(d, g, cycle, a, n);
    }
  }

  lemma {:induction false} CycleGoesOn(d: Disk, g: Geometry, cycle: set<nat>, a: nat, n: nat)
    requires Closed(d, g, cycle) && a in cycle
    ensures LongEnough(d, g, a, n)
    decreases n
  {
    if n > 1 {
      CycleGoesOn(d, g, cycle, NextCluster(d, g, a).value, n - 1);
    }
  }

  // ---------------------------------------------------------------------------
  // The on-disk layout
  // ---------------------------------------------------------------------------

  /** A boot sector by its fields; the bytes the kernel does not look at are arbitrary. */
  datatype BootSector = BootSector(jump: seq<Byte>, sectorsPerCluster: Byte, reserved: nat, fats: Byte,
                                   legacy: seq<Byte>, sectorsPerFat: nat,
                                   flags: seq<Byte>, root: nat, code: seq<Byte>)

  predicate BootFits(b: BootSector) {
    && |b.jump| == 11 && |b.legacy| == 19 && |b.flags| == 4 && |b.code| == 462
    && b.reserved < 0x1_0000 && b.sectorsPerFat < 0x1_0000_0000 && b.root < 0x1_0000_0000
  }

  function BootBytes(b: BootSector): (r: seq<Byte>)
    requires BootFits(b)
    ensures |r| == SECTOR_SIZE
  {
    b.jump + ToLe(SECTOR_SIZE, 2) + [b.sectorsPerCluster] + ToLe(b.reserved, 2) + [b.fats] + b.legacy +
        ToLe(b.sectorsPerFat, 4) + b.flags +
    ToLe(b.root, 4) + b.code + [0x55, 0xAA]
  }

  lemma BootFields(b: BootSector)
    requires BootFits(b)
    ensures var s := BootBytes(b);
            && Le(s, 11, 2) == SECTOR_SIZE && s[13] == b.sectorsPerCluster && Le(s, 14, 2) == b.reserved &&
                s[16] == b.fats
            && Le(s, 36, 4) == b.sectorsPerFat && Le(s, 44, 4) == b.root && s[510] == 0x55 && s[511] == 0xAA
  {
    hide Le, ToLe, Pow256;
    Pow256Values();
    var end := [0x55, 0xAA];
    var a := b.jump;
    var c := a + ToLe(SECTOR_SIZE, 2) + [b.sectorsPerCluster];
    var e := c + ToLe(b.reserved, 2) + [b.fats] + b.legacy;
    var f := e + ToLe(b.sectorsPerFat, 4) + b.flags;
    var fromRoot := b.code + end;
    var fromSize := b.flags + ToLe(b.root, 4) + fromRoot;
    var fromReserved := [b.fats] + b.legacy + ToLe(b.sectorsPerFat, 4) + fromSize;
    var fromSector := [b.sectorsPerCluster] + ToLe(b.reserved, 2) + fromReserved;
    var s := BootBytes(b);
    assert s == f + ToLe(b.root, 4) + fromRoot;
    assert s == e + ToLe(b.sectorsPerFat, 4) + fromSize;
    assert s == c + ToLe(b.reserved, 2) + fromReserved;
    assert s == a + ToLe(SECTOR_SIZE, 2) + fromSector;
    LeField(a, SECTOR_SIZE, 2, fromSector);
    LeField(c, b.reserved, 2, fromReserved);
    LeField(e, b.sectorsPerFat, 4, fromSize);
    LeField(f, b.root, 4, fromRoot);
  }

  /** Mounting recovers the geometry a boot sector describes, and fails exactly when it gives the
      FATs no sectors. */
  lemma MountRoundTrip(b: BootSector, rest: seq<Byte>)
    requires BootFits(b)
    ensures Mount(Ram(BootBytes(b) + rest)) ==
            if b.sectorsPerFat == 0 then Err
            else Ok(Geometry(b.sectorsPerCluster, b.reserved, b.reserved + b.fats * b.sectorsPerFat, b.root))
  {
    hide Le, BootBytes;
    BootFields(b);
    var d := BootBytes(b) + rest;
    assert d[0 * SECTOR_SIZE..0 * SECTOR_SIZE + SECTOR_SIZE] == BootBytes(b);
  }

  /** Which disks mount: those whose first sector is signed, has 512 bytes and gives the FATs sectors. */
  lemma MountIff(d: Disk)
    ensures var boot := ReadSector(d, 0);
            Mount(d).Ok? <==>
              && boot.Ok? && boot.value[510..512] == [0x55, 0xAA] && boot.value[11..13] == [0, 2]
              && boot.value[36..40] != [0, 0, 0, 0]
  {
    hide Le;
    if ReadSector(d, 0).Ok? {
      FieldBytes(ReadSector(d, 0).value);
    }
  }

  lemma FieldBytes(b: seq<Byte>)
    requires |b| == SECTOR_SIZE
    ensures b[510..512] == [0x55, 0xAA] <==> b[510] == 0x55 && b[511] == 0xAA
    ensures b[11..13] == [0, 2] <==> Le(b, 11, 2) == SECTOR_SIZE
    ensures b[36..40] == [0, 0, 0, 0] <==> Le(b, 36, 4) == 0
  {
    hide Le;
    LeWeights(b, 11);
    LeWeights(b, 36);
    LeWeights(b, 38);
    assert b[510..512] == [b[510], b[511]] && b[11..13] == [b[11], b[12]];
    assert b[36..40] == [b[36], b[37], b[38], b[39]];
  }

  lemma SectorOf(data: seq<Byte>, id: nat)
    requires (id + 1) * SECTOR_SIZE <= |data|
    ensures ReadSector(Ram(data), id) == Ok(data[id * SECTOR_SIZE..id * SECTOR_SIZE + SECTOR_SIZE])
  {
  }

  /** The FAT is one array of four-byte entries: the sector-wise lookup finds entry `cluster`. */
  lemma FatIsAnArray(data: seq<Byte>, g: Geometry, cluster: nat)
    requires 4 * cluster < 0x1_0000_0000 && (g.firstFatSector + 4 * cluster / SECTOR_SIZE + 1) * SECTOR_SIZE <= |data|
    ensures g.firstFatSector * SECTOR_SIZE + 4 * cluster + 4 <= |data|
    ensures NextCluster(Ram(data), g, cluster) == Ok(Le(data, g.firstFatSector * SECTOR_SIZE + 4 * cluster,
                                                        4) % 0x1000_0000)
  {
    hide Le, ReadSector;
    var o := 4 * cluster;
    var start := (g.firstFatSector + o / SECTOR_SIZE) * SECTOR_SIZE;
    SectorOf(data, g.firstFatSector + o / SECTOR_SIZE);
    EntryPlace(g.firstFatSector, cluster);
    var at := g.firstFatSector * SECTOR_SIZE + o;
    SubSlice(data, start, SECTOR_SIZE, o % SECTOR_SIZE, o % SECTOR_SIZE + 4);
    LeMoved(data[start..start + SECTOR_SIZE], o % SECTOR_SIZE, data, at, 4);
  }

  /** Entries do not straddle sectors. */
  lemma EntryPlace(first: nat, cluster: nat)
    ensures var o := 4 * cluster;
            o % SECTOR_SIZE + 4 <= SECTOR_SIZE && first * SECTOR_SIZE + o == (first + o / SECTOR_SIZE) * SECTOR_SIZE +
                o % SECTOR_SIZE
  {
    assert 4 * cluster % SECTOR_SIZE == 4 * (cluster % 128) by {
      assert cluster == cluster / 128 * 128 + cluster % 128;
    }
  }

  lemma {:induction false} SectorsAreSlice(data: seq<Byte>, start: nat, n: nat)
    ensures Sectors(Ram(data), start, n) ==
            if n == 0 then Ok([]) else if (start + n) * SECTOR_SIZE <= |data|
                then Ok(data[start * SECTOR_SIZE..(start + n) * SECTOR_SIZE]) else Err
  {
    if n > 0 {
      SectorsAreSlice(data, start, n - 1);
      var a, b, c := start * SECTOR_SIZE, (start + n - 1) * SECTOR_SIZE, (start + n) * SECTOR_SIZE;
      assert c == b + SECTOR_SIZE;
      if c <= |data| {
        assert data[a..c] == data[a..b] + data[b..c];
      }
    }
  }

  /** A cluster is one stretch of the data area, readable exactly when it lies on the disk. */
  lemma ClusterIsSlice(data: seq<Byte>, g: Geometry, cluster: nat)
    requires cluster >= 2 && g.sectorsPerCluster >= 1
    ensures var at := ClusterToSector(g, cluster) * SECTOR_SIZE;
            ClusterData(Ram(data), g, cluster) == if at + ClusterSize(g) <= |data|
                then Ok(data[at..at + ClusterSize(g)]) else Err
  {
    hide Sectors;
    SectorsAreSlice(data, ClusterToSector(g, cluster), g.sectorsPerCluster);
  }

  /** Clusters do not overlap each other or anything before the data area, which they fill from
      cluster 2 on without gaps. */
  lemma {:induction false} ClustersApart(g: Geometry, c: nat, d: nat)
    requires 2 <= c < d
    ensures g.firstDataSector <= ClusterToSector(g, c) &&
            ClusterToSector(g, c) + g.sectorsPerCluster <= ClusterToSector(g, d)
    ensures ClusterToSector(g, 2) == g.firstDataSector
    ensures d == c + 1 ==> ClusterToSector(g, c) + g.sectorsPerCluster == ClusterToSector(g, d)
    decreases d
  {
    assert (2 - 2) * g.sectorsPerCluster == 0;
    OneMore(d - 3, g.sectorsPerCluster);
    if d > c + 1 {
      ClustersApart(g, c, d - 1);
    }
  }

  lemma OneMore(n: nat, size: nat)
    ensures (n + 1) * size == n * size + size
  {
  }
}
