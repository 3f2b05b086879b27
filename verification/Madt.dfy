/** The ACPI MADT: a walk over type-length-value entries that fills fixed-size lists. */
module Madt {
  import opened Basics

  const MAX_CPUS: nat := 64
  const MAX_IOAPICS: nat := 8
  const MAX_ISOS: nat := 24
  /** The table header, the local APIC address and the flags. */
  const FIXED_HEADER: nat := 44

  datatype Polarity = PolarityOfBus | ActiveHigh | ActiveLow
  datatype TriggerMode = TriggerOfBus | Edge | Level
  datatype Cpu = Cpu(processorId: nat, apicId: nat, enabled: bool, onlineCapable: bool)
  datatype IoApic = IoApic(id: nat, address: nat, gsiBase: nat)
  datatype Iso = Iso(bus: nat, sourceIrq: nat, gsi: nat, polarity: Polarity, trigger: TriggerMode)

  /** What a walk has found so far. */
  datatype Found = Found(address: nat, cpus: seq<Cpu>, ioapics: seq<IoApic>, isos: seq<Iso>)

  // ---------------------------------------------------------------------------
  // One entry
  // ---------------------------------------------------------------------------

  function PolarityOf(flags: nat): Polarity {
    if flags % 4 == 1 then ActiveHigh else if flags % 4 == 3 then ActiveLow else PolarityOfBus
  }

  function TriggerOf(flags: nat): TriggerMode {
    if flags / 4 % 4 == 1 then Edge else if flags / 4 % 4 == 3 then Level else TriggerOfBus
  }

  /** The CPU an entry describes, at most one: an entry that is neither enabled nor able to be
      brought online describes none, and so does one too short for its type. */
  function CpusOf(e: seq<Byte>): seq<Cpu> {
    if |e| >= 8 && e[0] == 0 then Usable(Cpu(e[2], e[3], Le(e, 4, 4) % 2 == 1, Le(e, 4, 4) / 2 % 2 == 1))
    else if |e| >= 16 && e[0] == 9 then Usable(Cpu(Le(e, 12, 4) % 256, Le(e, 4, 4), Le(e, 8, 4) % 2 == 1,
                                                   Le(e, 8, 4) / 2 % 2 == 1))
    else []
  }

  function Usable(c: Cpu): seq<Cpu> {
    if c.enabled || c.onlineCapable then [c] else []
  }

  function IoApicsOf(e: seq<Byte>): seq<IoApic> {
    if |e| >= 12 && e[0] == 1 then [IoApic(e[2], Le(e, 4, 4), Le(e, 8, 4))] else []
  }

  function IsosOf(e: seq<Byte>): seq<Iso> {
    if |e| >= 10 && e[0] == 2 then [Iso(e[2], e[3], Le(e, 4, 4), PolarityOf(Le(e, 8, 2)), TriggerOf(Le(e, 8, 2)))]
        else []
  }

  /** The local APIC address after an entry. */
  function AddressAfter(address: nat, e: seq<Byte>): nat {
    if |e| >= 12 && e[0] == 5 then Le(e, 4, 8) else address
  }

  /** An entry of the list, with its length in its second byte. */
  predicate WellFormed(e: seq<Byte>) {
    2 <= |e| < 256 && e[1] == |e|
  }

  /** The types the kernel acts on. */
  predicate KnownType(e: seq<Byte>) {
    |e| >= 2 && (e[0] == 0 || e[0] == 1 || e[0] == 2 || e[0] == 5 || e[0] == 9)
  }

  // ---------------------------------------------------------------------------
  // The entry layouts of section 5.2.12 of the ACPI specification
  // ---------------------------------------------------------------------------

  datatype Record =
    | LocalApic(cpu: Cpu)
    | LocalX2Apic(cpu: Cpu, uid: nat)
    | IoApicRecord(ioapic: IoApic)
    | IsoRecord(iso: Iso)
    | AddressOverride(address: nat)

  /** What an entry holds besides its record: reserved flag bits, reserved bytes, and bytes after the end. */
  datatype Rest = Rest(bits: nat, pad: Byte, more: Byte, tail: seq<Byte>)

  predicate Fits(r: Record, o: Rest) {
    && |o.tail| < 240
    && match r
       case LocalApic(c) => c.processorId < 256 && c.apicId < 256 && o.bits < 0x4000_0000
       case LocalX2Apic(c, uid) =>
         c.processorId == uid % 256 && c.apicId < 0x1_0000_0000 && uid < 0x1_0000_0000 && o.bits < 0x4000_0000
       case IoApicRecord(x) => x.id < 256 && x.address < 0x1_0000_0000 && x.gsiBase < 0x1_0000_0000
       case IsoRecord(x) => x.bus < 256 && x.sourceIrq < 256 && x.gsi < 0x1_0000_0000 && o.bits < 0x1000
       case AddressOverride(a) => a < 0x1_0000_0000_0000_0000
  }

  function CpuFlags(c: Cpu): nat {
    (if c.enabled then 1 else 0) + (if c.onlineCapable then 2 else 0)
  }

  function MpsFlags(x: Iso): nat {
    (match x.polarity case PolarityOfBus => 0 case ActiveHigh => 1 case ActiveLow => 3) +
    (match x.trigger case TriggerOfBus => 0 case Edge => 4 case Level => 12)
  }

  function Encode(r: Record, o: Rest): seq<Byte>
    requires Fits(r, o)
  {
    match r
    case LocalApic(c) => [0, 8 + |o.tail|, c.processorId, c.apicId] + ToLe(CpuFlags(c) + 4 * o.bits, 4) + o.tail
    case LocalX2Apic(c, uid) =>
      [9, 16 + |o.tail|, o.pad, o.more] + ToLe(c.apicId, 4) + ToLe(CpuFlags(c) + 4 * o.bits, 4) + ToLe(uid, 4) + o.tail
    case IoApicRecord(x) => [1, 12 + |o.tail|, x.id, o.pad] + ToLe(x.address, 4) + ToLe(x.gsiBase, 4) + o.tail
    case IsoRecord(x) =>
      [2, 10 + |o.tail|, x.bus, x.sourceIrq] + ToLe(x.gsi, 4) + ToLe(MpsFlags(x) + 16 * o.bits, 2) + o.tail
    case AddressOverride(a) => [5, 12 + |o.tail|, o.pad, o.more] + ToLe(a, 8) + o.tail
  }

  /** What the entry should be read as. */
  ghost predicate ReadsAs(e: seq<Byte>, r: Record, address: nat) {
    && WellFormed(e)
    && CpusOf(e) == (if (r.LocalApic? || r.LocalX2Apic?) && (r.cpu.enabled || r.cpu.onlineCapable) then [r.cpu] else [])
    && IoApicsOf(e) == (if r.IoApicRecord? then [r.ioapic] else [])
    && IsosOf(e) == (if r.IsoRecord? then [r.iso] else [])
    && AddressAfter(address, e) == (if r.AddressOverride? then r.address else address)
  }

  /** Every record is read back from its entry, whatever the reserved bits and bytes are and whatever
      follows: a CPU exactly when it is usable, every other record whole, and nothing of any other kind. */
  lemma EntryDecodes(r: Record, o: Rest, address: nat)
    requires Fits(r, o)
    ensures ReadsAs(Encode(r, o), r, address)
  {
    hide Le, ToLe, Pow256;
    Pow256Values();
    var e := Encode(r, o);
    match r {
      case LocalApic(c) =>
        LeField([0, 8 + |o.tail|, c.processorId, c.apicId], CpuFlags(c) + 4 * o.bits, 4, o.tail);
        CpuFlagsRead(c, o.bits);
      case LocalX2Apic(c, uid) =>
        X2ApicDecodes(c, uid, o, address);
      case IoApicRecord(x) =>
        var a, b, d := [1, 12 + |o.tail|, x.id, o.pad], ToLe(x.address, 4), ToLe(x.gsiBase, 4);
        assert e == a + b + (d + o.tail);
        LeField(a, x.address, 4, d + o.tail);
        LeField(a + b, x.gsiBase, 4, o.tail);
      case IsoRecord(x) =>
        IsoDecodes(x, o, address);
      case AddressOverride(a) =>
        LeField([5, 12 + |o.tail|, o.pad, o.more], a, 8, o.tail);
    }
  }

  lemma CpuFlagsRead(c: Cpu, bits: nat)
    ensures var f := CpuFlags(c) + 4 * bits; (f % 2 == 1 <==> c.enabled) && (f / 2 % 2 == 1 <==> c.onlineCapable)
  {
    TwosAbove(CpuFlags(c), 2 * bits);
    TwosAbove(CpuFlags(c) / 2, bits);
  }

  lemma X2ApicDecodes(c: Cpu, uid: nat, o: Rest, address: nat)
    requires Fits(LocalX2Apic(c, uid), o)
    ensures ReadsAs(Encode(LocalX2Apic(c, uid), o), LocalX2Apic(c, uid), address)
  {
    hide Le, ToLe, Pow256;
    Pow256Values();
    var e, flags := Encode(LocalX2Apic(c, uid), o), CpuFlags(c) + 4 * o.bits;
    var a, b, d, u := [9, 16 + |o.tail|, o.pad, o.more], ToLe(c.apicId, 4), ToLe(flags, 4), ToLe(uid, 4);
    assert e == a + b + (d + u + o.tail);
    assert e == a + b + d + (u + o.tail);
    LeField(a, c.apicId, 4, d + u + o.tail);
    LeField(a + b, flags, 4, u + o.tail);
    LeField(a + b + d, uid, 4, o.tail);
    CpuFlagsRead(c, o.bits);
  }

  /** Reserved bits above the settings do not disturb them. */
  lemma SettingsRead(x: Iso, bits: nat)
    ensures PolarityOf(MpsFlags(x) + 16 * bits) == x.polarity && TriggerOf(MpsFlags(x) + 16 * bits) == x.trigger
  {
    var a := MpsFlags(x);
    FoursAbove(a, 4 * bits);
    FoursAbove(a / 4, bits);
  }

  lemma FoursAbove(a: nat, b: nat)
    ensures (a + 4 * b) % 4 == a % 4 && (a + 4 * b) / 4 == a / 4 + b
  {
  }

  lemma TwosAbove(a: nat, b: nat)
    ensures (a + 2 * b) % 2 == a % 2 && (a + 2 * b) / 2 == a / 2 + b
  {
  }

  lemma IsoDecodes(x: Iso, o: Rest, address: nat)
    requires Fits(IsoRecord(x), o)
    ensures ReadsAs(Encode(IsoRecord(x), o), IsoRecord(x), address)
  {
    hide Le, ToLe, Pow256;
    Pow256Values();
    var e, flags := Encode(IsoRecord(x), o), MpsFlags(x) + 16 * o.bits;
    var a, b, d := [2, 10 + |o.tail|, x.bus, x.sourceIrq], ToLe(x.gsi, 4), ToLe(flags, 2);
    assert e == a + b + (d + o.tail);
    SettingsRead(x, o.bits);
    hide PolarityOf, TriggerOf;
    LeField(a, x.gsi, 4, d + o.tail);
    LeField(a + b, flags, 2, o.tail);
  }

  /** Reserved polarity and trigger settings are read as the bus's own. */
  lemma ReservedSettings(flags: nat)
    ensures PolarityOf(flags).PolarityOfBus? <==> flags % 4 == 0 || flags % 4 == 2
    ensures TriggerOf(flags).TriggerOfBus? <==> flags / 4 % 4 == 0 || flags / 4 % 4 == 2
  {
  }

  /** An entry too short for its type says nothing. */
  lemma ShortEntries(e: seq<Byte>, address: nat)
    requires WellFormed(e)
    requires e[0] == 0 ==> |e| < 8
    requires e[0] == 1 || e[0] == 5 ==> |e| < 12
    requires e[0] == 2 ==> |e| < 10
    requires e[0] == 9 ==> |e| < 16
    ensures CpusOf(e) == [] && IoApicsOf(e) == [] && IsosOf(e) == [] && AddressAfter(address, e) == address
  {
  }

  // ---------------------------------------------------------------------------
  // The entry list
  // ---------------------------------------------------------------------------

  /** The entries from `at` on: the walk stops where no entry fits any more, or at an entry whose
      length is below two or passes the table's end. */
  function EntriesFrom(t: seq<Byte>, at: nat): (es: seq<seq<Byte>>)
    requires at <= |t|
    ensures forall k :: 0 <= k < |es| ==> WellFormed(es[k])
    decreases |t| - at
  {
    if at + 2 > |t| || t[at + 1] < 2 || at + t[at + 1] > |t| then []
    else [t[at..at + t[at + 1]]] + EntriesFrom(t, at + t[at + 1])
  }

  function Serialise(es: seq<seq<Byte>>): seq<Byte> {
    if es == [] then [] else es[0] + Serialise(es[1..])
  }

  /** The entries found are the table's own bytes from `at` on, none outside the table. */
  lemma {:induction false} EntriesAreTheTable(t: seq<Byte>, at: nat)
    requires at <= |t|
    ensures at + |Serialise(EntriesFrom(t, at))| <= |t|
    ensures Serialise(EntriesFrom(t, at)) == t[at..at + |Serialise(EntriesFrom(t, at))|]
    decreases |t| - at
  {
    var es := EntriesFrom(t, at);
    if es != [] {
      var n := t[at + 1];
      EntriesAreTheTable(t, at + n);
      assert es[1..] == EntriesFrom(t, at + n);
      var rest := Serialise(es[1..]);
      assert t[at..at + n + |rest|] == t[at..at + n] + t[at + n..at + n + |rest|];
    }
  }

  lemma Regroup<T>(a: seq<T>, b: seq<T>, c: seq<T>, d: seq<T>)
    ensures a + (b + c) + d == a + b + c + d == a + b + (c + d) && |a + b| == |a| + |b|
  {
  }

  lemma Joined<T>(es: seq<T>, all: seq<T>, more: seq<T>, end: seq<T>)
    requires es != [] && all == [es[0]] + more && more == es[1..] + end
    ensures all == es + end
  {
  }

  lemma EntryFound(before: seq<Byte>, e: seq<Byte>, after: seq<Byte>)
    requires WellFormed(e)
    ensures var t := before + e + after; EntriesFrom(t, |before|) == [e] + EntriesFrom(t, |before| + |e|)
  {
    var t := before + e + after;
    assert t[|before|..|before| + |e|] == e;
    assert t[|before| + 1] == e[1];
  }

  /** A serialised list is read back entry by entry, whatever precedes and follows it. */
  lemma {:induction false} EntriesRoundTrip(before: seq<Byte>, es: seq<seq<Byte>>, after: seq<Byte>)
    requires forall k :: 0 <= k < |es| ==> WellFormed(es[k])
    ensures var t := before + Serialise(es) + after;
            EntriesFrom(t, |before|) == es + EntriesFrom(t, |before| + |Serialise(es)|)
    decreases |es|
  {
    hide EntriesFrom, WellFormed;
    var t := before + Serialise(es) + after;
    if es != [] {
      var e, tail := es[0], es[1..];
      var rest := Serialise(tail);
      Regroup(before, e, rest, after);
      EntriesRoundTrip(before + e, tail, after);
      EntryFound(before, e, rest + after);
      Joined(es, EntriesFrom(t, |before|), EntriesFrom(t, |before| + |e|), EntriesFrom(t, |before| + |Serialise(es)|));
    } else {
      assert es + EntriesFrom(t, |before|) == EntriesFrom(t, |before|);
    }
  }

  // ---------------------------------------------------------------------------
  // What a list of entries means
  // ---------------------------------------------------------------------------

  function Take<T>(s: seq<T>, n: nat): seq<T> {
    if |s| <= n then s else s[..n]
  }

  /** One entry: a full list drops what the entry would add. */
  function Step(f: Found, e: seq<Byte>): Found {
    Found(AddressAfter(f.address, e), Take(f.cpus + CpusOf(e), MAX_CPUS), Take(f.ioapics + IoApicsOf(e), MAX_IOAPICS),
          Take(f.isos + IsosOf(e), MAX_ISOS))
  }

  function Walk(f: Found, es: seq<seq<Byte>>): Found
    decreases |es|
  {
    if es == [] then f else Walk(Step(f, es[0]), es[1..])
  }

  function AllCpus(es: seq<seq<Byte>>): seq<Cpu> {
    if es == [] then [] else CpusOf(es[0]) + AllCpus(es[1..])
  }

  function AllIoApics(es: seq<seq<Byte>>): seq<IoApic> {
    if es == [] then [] else IoApicsOf(es[0]) + AllIoApics(es[1..])
  }

  function AllIsos(es: seq<seq<Byte>>): seq<Iso> {
    if es == [] then [] else IsosOf(es[0]) + AllIsos(es[1..])
  }

  /** The last address override of the list, or the given address when there is none. */
  function LastAddress(address: nat, es: seq<seq<Byte>>): nat
  {
    if es == [] then address
    else
      var e := es[|es| - 1];
      if |e| >= 12 && e[0] == 5 then Le(e, 4, 8) else LastAddress(address, es[..|es| - 1])
  }

  lemma TakeMore<T>(a: seq<T>, b: seq<T>, c: seq<T>, n: nat)
    ensures Take(Take(a + b, n) + c, n) == Take(a + (b + c), n)
  {
    assert a + b + c == a + (b + c);
    if |a + b| > n {
      assert (Take(a + b, n) + c)[..n] == (a + b)[..n];
      assert (a + b + c)[..n] == (a + b)[..n];
    }
  }

  lemma {:induction false} LastAddressStep(address: nat, es: seq<seq<Byte>>)
    requires es != []
    ensures LastAddress(address, es) == LastAddress(AddressAfter(address, es[0]), es[1..])
    decreases |es|
  {
    if |es| > 1 {
      var init := es[..|es| - 1];
      LastAddressStep(address, init);
      assert es[1..][..|es| - 2] == init[1..];
    } else {
      assert es[..0] == [] && es[1..] == [];
    }
  }

  /** The walk finds the usable CPUs, the I/O APICs and the overrides in table order, each list up
      to its capacity, and the last address override. */
  lemma {:induction false} WalkMeaning(f: Found, es: seq<seq<Byte>>)
    requires |f.cpus| <= MAX_CPUS && |f.ioapics| <= MAX_IOAPICS && |f.isos| <= MAX_ISOS
    ensures Walk(f, es) == Found(LastAddress(f.address, es), Take(f.cpus + AllCpus(es), MAX_CPUS),
                                 Take(f.ioapics + AllIoApics(es), MAX_IOAPICS), Take(f.isos + AllIsos(es), MAX_ISOS))
    decreases |es|
  {
    if es == [] {
      assert f.cpus + [] == f.cpus && f.ioapics + [] == f.ioapics && f.isos + [] == f.isos;
    } else {
      var e, rest := es[0], es[1..];
      WalkMeaning(Step(f, e), rest);
      LastAddressStep(f.address, es);
      TakeMore(f.cpus, CpusOf(e), AllCpus(rest), MAX_CPUS);
      TakeMore(f.ioapics, IoApicsOf(e), AllIoApics(rest), MAX_IOAPICS);
      TakeMore(f.isos, IsosOf(e), AllIsos(rest), MAX_ISOS);
    }
  }

  lemma {:induction false} WalkAppend(f: Found, a: seq<seq<Byte>>, b: seq<seq<Byte>>)
    ensures Walk(f, a + b) == Walk(Walk(f, a), b)
    decreases |a|
  {
    if a == [] {
      assert a + b == b;
    } else {
      WalkAppend(Step(f, a[0]), a[1..], b);
      assert (a + b)[1..] == a[1..] + b;
    }
  }

  /** What the parser reports about a table, as a function of its bytes. */
  function Parsed(t: seq<Byte>): Found
    requires |t| >= FIXED_HEADER
  {
    Walk(Found(Le(t, 36, 4), [], [], []), EntriesFrom(t, FIXED_HEADER))
  }

  /** On a well-formed list nothing is lost and nothing else is found. */
  lemma ParsedSerialised(header: seq<Byte>, es: seq<seq<Byte>>)
    requires |header| == 44 && forall k :: 0 <= k < |es| ==> WellFormed(es[k])
    ensures Parsed(header + Serialise(es)) ==
            Found(LastAddress(Le(header, 36, 4), es), Take(AllCpus(es), 64), Take(AllIoApics(es), 8),
                  Take(AllIsos(es), 24))
  {
    var t := header + Serialise(es);
    EntriesRoundTrip(header, es, []);
    assert t == header + Serialise(es) + [];
    assert EntriesFrom(t, FIXED_HEADER) == es;
    LeMoved(t, 36, header, 36, 4);
    WalkMeaning(Found(Le(t, 36, 4), [], [], []), es);
    assert [] + AllCpus(es) == AllCpus(es) && [] + AllIoApics(es) == AllIoApics(es) && [] + AllIsos(es) == AllIsos(es);
  }

  lemma WalkUnknown(f: Found, a: seq<seq<Byte>>, u: seq<Byte>, b: seq<seq<Byte>>)
    requires |f.cpus| <= MAX_CPUS && |f.ioapics| <= MAX_IOAPICS && |f.isos| <= MAX_ISOS
    requires !KnownType(u)
    ensures Walk(f, a + [u] + b) == Walk(f, a + b)
  {
    WalkMeaning(f, a);
    var g := Walk(f, a);
    assert g.cpus + [] == g.cpus && g.ioapics + [] == g.ioapics && g.isos + [] == g.isos;
    assert Step(g, u) == g;
    assert ([u] + b)[1..] == b && a + [u] + b == a + ([u] + b);
    WalkAppend(f, a, [u] + b);
    WalkAppend(f, a, b);
  }

  /** An entry of a type the kernel does not know changes nothing, wherever it stands. */
  lemma UnknownEntryIgnored(header: seq<Byte>, a: seq<seq<Byte>>, u: seq<Byte>, b: seq<seq<Byte>>)
    requires |header| == FIXED_HEADER && WellFormed(u) && !KnownType(u)
    requires forall k :: 0 <= k < |a| ==> WellFormed(a[k])
    requires forall k :: 0 <= k < |b| ==> WellFormed(b[k])
    ensures Parsed(header + Serialise(a + [u] + b)) == Parsed(header + Serialise(a + b))
  {
    hide Parsed, Serialise, Walk;
    ParsedWalk(header, a + [u] + b);
    ParsedWalk(header, a + b);
    WalkUnknown(Found(Le(header, 36, 4), [], [], []), a, u, b);
  }

  lemma ParsedWalk(header: seq<Byte>, es: seq<seq<Byte>>)
    requires |header| == FIXED_HEADER && forall k :: 0 <= k < |es| ==> WellFormed(es[k])
    ensures Parsed(header + Serialise(es)) == Walk(Found(Le(header, 36, 4), [], [], []), es)
  {
    ParsedSerialised(header, es);
    WalkMeaning(Found(Le(header, 36, 4), [], [], []), es);
    assert [] + AllCpus(es) == AllCpus(es) && [] + AllIoApics(es) == AllIoApics(es) && [] + AllIsos(es) == AllIsos(es);
  }

  lemma WalkNext(f: Found, t: seq<Byte>, at: nat)
    requires at + 2 <= |t| && t[at + 1] >= 2 && at + t[at + 1] <= |t|
    ensures Walk(f, EntriesFrom(t, at)) == Walk(Step(f, t[at..at + t[at + 1]]), EntriesFrom(t, at + t[at + 1]))
  {
    assert EntriesFrom(t, at)[1..] == EntriesFrom(t, at + t[at + 1]);
  }

  lemma WalkEnds(f: Found, t: seq<Byte>, at: nat)
    requires at <= |t| && (at + 2 > |t| || t[at + 1] < 2 || at + t[at + 1] > |t|)
    ensures Walk(f, EntriesFrom(t, at)) == f
  {
  }

  // ---------------------------------------------------------------------------
  // The parser
  // ---------------------------------------------------------------------------

  class MadtData {
    var found: bool
    var localApicAddress: nat
    var legacyPicPresent: bool
    const cpus: array<Cpu>
    var cpuCount: nat
    const ioapics: array<IoApic>
    var ioapicCount: nat
    const isos: array<Iso>
    var isoCount: nat

    ghost predicate Valid()
      reads this
    {
      && cpus.Length == MAX_CPUS && cpuCount <= MAX_CPUS
      && ioapics.Length == MAX_IOAPICS && ioapicCount <= MAX_IOAPICS
      && isos.Length == MAX_ISOS && isoCount <= MAX_ISOS
    }

    ghost function View(): Found
      requires Valid()
      reads this, cpus, ioapics, isos
    {
      Found(localApicAddress, cpus[..cpuCount], ioapics[..ioapicCount], isos[..isoCount])
    }

    constructor ()
      ensures Valid() && fresh(cpus) && fresh(ioapics) && fresh(isos)
      ensures !found && View() == Found(0, [], [], [])
    {
      found, localApicAddress, legacyPicPresent := false, 0, false;
      cpus := new Cpu[MAX_CPUS](_ => Cpu(0, 0, false, false));
      ioapics := new IoApic[MAX_IOAPICS](_ => IoApic(0, 0, 0));
      isos := new Iso[MAX_ISOS](_ => Iso(0, 0, 0, PolarityOfBus, TriggerOfBus));
      cpuCount, ioapicCount, isoCount := 0, 0, 0;
    }

    method PushCpu(c: Cpu)
      requires Valid()
      modifies this`cpuCount, cpus
      ensures Valid()
      ensures cpus[..cpuCount] == Take(old(cpus[..cpuCount]) + Usable(c), MAX_CPUS)
    {
      if !c.enabled && !c.onlineCapable {
        assert cpus[..cpuCount] + [] == cpus[..cpuCount];
        return;
      }
      if cpuCount >= MAX_CPUS {
        assert (cpus[..cpuCount] + [c])[..MAX_CPUS] == cpus[..cpuCount];
        return;
      }
      cpus[cpuCount] := c;
      cpuCount := cpuCount + 1;
    }

    method PushIoApic(x: IoApic)
      requires Valid()
      modifies this`ioapicCount, ioapics
      ensures Valid()
      ensures ioapics[..ioapicCount] == Take(old(ioapics[..ioapicCount]) + [x], MAX_IOAPICS)
    {
      if ioapicCount < MAX_IOAPICS {
        ioapics[ioapicCount] := x;
        ioapicCount := ioapicCount + 1;
      } else {
        assert (ioapics[..ioapicCount] + [x])[..MAX_IOAPICS] == ioapics[..ioapicCount];
      }
    }

    method PushIso(x: Iso)
      requires Valid()
      modifies this`isoCount, isos
      ensures Valid()
      ensures isos[..isoCount] == Take(old(isos[..isoCount]) + [x], MAX_ISOS)
    {
      if isoCount < MAX_ISOS {
        isos[isoCount] := x;
        isoCount := isoCount + 1;
      } else {
        assert (isos[..isoCount] + [x])[..MAX_ISOS] == isos[..isoCount];
      }
    }

    /** The effect of one entry `e` of the list. */
    method Visit(e: seq<Byte>)
      requires Valid() && |e| >= 2
      modifies this`localApicAddress, this`cpuCount, this`ioapicCount, this`isoCount, cpus, ioapics, isos
      ensures Valid() && View() == Step(old(View()), e)
    {
      ghost var f := View();
      assert f.cpus + [] == f.cpus && f.ioapics + [] == f.ioapics && f.isos + [] == f.isos;
      match e[0] {
        case 0 =>
          if |e| >= 8 {
            PushCpu(Cpu(e[2], e[3], Le(e, 4, 4) % 2 == 1, Le(e, 4, 4) / 2 % 2 == 1));
          }
        case 1 =>
          if |e| >= 12 {
            PushIoApic(IoApic(e[2], Le(e, 4, 4), Le(e, 8, 4)));
          }
        case 2 =>
          if |e| >= 10 {
            PushIso(Iso(e[2], e[3], Le(e, 4, 4), PolarityOf(Le(e, 8, 2)), TriggerOf(Le(e, 8, 2))));
          }
        case 5 =>
          if |e| >= 12 {
            localApicAddress := Le(e, 4, 8);
          }
        case 9 =>
          if |e| >= 16 {
            PushCpu(Cpu(Le(e, 12, 4) % 256, Le(e, 4, 4), Le(e, 8, 4) % 2 == 1, Le(e, 8, 4) / 2 % 2 == 1));
          }
        case _ =>
      }
    }

    /** Walks the table `t`. Any bytes at all are accepted; a table too short for its fixed header
        leaves the previous data in place. */
    method Parse(t: seq<Byte>)
      requires Valid()
      modifies this, cpus, ioapics, isos
      ensures Valid()
      ensures |t| < FIXED_HEADER ==>
              View() == old(View()) && found == old(found) && legacyPicPresent == old(legacyPicPresent)
      ensures |t| >= FIXED_HEADER ==> found && legacyPicPresent == (Le(t, 40, 4) % 2 == 1) && View() == Parsed(t)
    {
      hide Step, Walk, EntriesFrom, Le;
      if |t| < FIXED_HEADER {
        return;
      }
      found, localApicAddress, legacyPicPresent := true, Le(t, 36, 4), Le(t, 40, 4) % 2 == 1;
      cpuCount, ioapicCount, isoCount := 0, 0, 0;
      var cursor := FIXED_HEADER;
      while cursor + 2 <= |t|
        invariant FIXED_HEADER <= cursor <= |t| && Valid() && found && legacyPicPresent == (Le(t, 40, 4) % 2 == 1)
        invariant Walk(View(), EntriesFrom(t, cursor)) == Parsed(t)
      {
        var length := t[cursor + 1] as int;
        if length < 2 || cursor + length > |t| {
          WalkEnds(View(), t, cursor);
          return;
        }
        WalkNext(View(), t, cursor);
        Visit(t[cursor..cursor + length]);
        cursor := cursor + length;
      }
      WalkEnds(View(), t, cursor);
    }

    /** The first recorded override of an ISA interrupt. */
    method IsoForIrq(irq: Byte) returns (r: Option<Iso>)
      requires Valid()
      ensures r.None? ==> forall k :: 0 <= k < isoCount ==> !(isos[k].bus == 0 && isos[k].sourceIrq == irq)
      ensures r.Some? ==>
              exists k :: 0 <= k < isoCount && isos[k] == r.value && r.value.bus == 0 && r.value.sourceIrq == irq &&
                                       forall j :: 0 <= j < k ==> !(isos[j].bus == 0 && isos[j].sourceIrq == irq)
    {
      for i := 0 to isoCount
        invariant forall k :: 0 <= k < i ==> !(isos[k].bus == 0 && isos[k].sourceIrq == irq)
      {
        if isos[i].bus == 0 && isos[i].sourceIrq == irq {
          return Some(isos[i]);
        }
      }
      r := None;
    }
  }
}
