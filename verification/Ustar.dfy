/** The ramdisk: iterating over a ustar archive held in memory. */
module Ustar {
  import opened Basics

  const BLOCK: nat := 512

  /** Names are the bytes of the string. */
  datatype FileEntry = FileEntry(name: seq<Byte>, size: nat, data: seq<Byte>, typeflag: Byte)

  // ---------------------------------------------------------------------------
  // UTF-8
  // ---------------------------------------------------------------------------

  predicate Tail(s: seq<Byte>, k: nat, lo: int, hi: int) {
    k < |s| && lo <= s[k] <= hi
  }

  /** The bytes of the first character of `s` in UTF-8, or zero when there is none. */
  function FirstWidth(s: seq<Byte>): (w: nat)
    ensures w <= |s|
  {
    if s == [] then 0
    else if s[0] < 0x80 then 1
    else if 0xC2 <= s[0] <= 0xDF && Tail(s, 1, 0x80, 0xBF) then 2
    else if 0xE0 <= s[0] <= 0xEF && Tail(s, 1, if s[0] == 0xE0 then 0xA0 else 0x80, if s[0] == 0xED then 0x9F else 0xBF)
            && Tail(s, 2, 0x80, 0xBF) then 3
    else if 0xF0 <= s[0] <= 0xF4 && Tail(s, 1, if s[0] == 0xF0 then 0x90 else 0x80, if s[0] == 0xF4 then 0x8F else 0xBF)
            && Tail(s, 2, 0x80, 0xBF) && Tail(s, 3, 0x80, 0xBF) then 4
    else 0
  }

  predicate ValidUtf8(s: seq<Byte>) {
    s == [] || (FirstWidth(s) > 0 && ValidUtf8(s[FirstWidth(s)..]))
  }

  /** A Unicode scalar value: a code point that is not a surrogate. */
  predicate Scalar(c: nat) {
    c < 0xD800 || 0xE000 <= c < 0x11_0000
  }

  /** The bytes of a scalar value, as section 3 of RFC 3629 lays them out. */
  function Encoded(c: nat): (b: seq<Byte>)
    requires Scalar(c)
    ensures 1 <= |b| <= 4
  {
    if c < 0x80 then [c]
    else if c < 0x800 then [0xC0 + c / 0x40, 0x80 + c % 0x40]
    else if c < 0x1_0000 then [0xE0 + c / 0x1000, 0x80 + c / 0x40 % 0x40, 0x80 + c % 0x40]
    else [0xF0 + c / 0x4_0000, 0x80 + c / 0x1000 % 0x40, 0x80 + c / 0x40 % 0x40, 0x80 + c % 0x40]
  }

  predicate Scalars(cs: seq<nat>) {
    forall i :: 0 <= i < |cs| ==> Scalar(cs[i])
  }

  function Text(cs: seq<nat>): seq<Byte>
    requires Scalars(cs)
  {
    if cs == [] then [] else Encoded(cs[0]) + Text(cs[1..])
  }

  lemma EncodedWidth(c: nat, rest: seq<Byte>)
    requires Scalar(c)
    ensures FirstWidth(Encoded(c) + rest) == |Encoded(c)|
  {
    var s := Encoded(c) + rest;
    assert forall k :: 0 <= k < |Encoded(c)| ==> s[k] == Encoded(c)[k];
    if c < 0x80 {
    } else if c < 0x800 {
      assert 0xC2 <= s[0] <= 0xDF && Tail(s, 1, 0x80, 0xBF);
    } else if c < 0x1_0000 {
      assert 0xE0 <= s[0] <= 0xEF && Tail(s, 2, 0x80, 0xBF);
      assert Tail(s, 1, if s[0] == 0xE0 then 0xA0 else 0x80, if s[0] == 0xED then 0x9F else 0xBF);
    } else {
      assert 0xF0 <= s[0] <= 0xF4 && Tail(s, 2, 0x80, 0xBF) && Tail(s, 3, 0x80, 0xBF);
      assert Tail(s, 1, if s[0] == 0xF0 then 0x90 else 0x80, if s[0] == 0xF4 then 0x8F else 0xBF);
    }
  }

  /** A number put together from a leading part and three groups of six bits. */
  lemma Groups(a: nat, b: nat, c: nat, d: nat)
    requires b < 0x40 && c < 0x40 && d < 0x40
    ensures var v := a * 0x4_0000 + b * 0x1000 + c * 0x40 + d;
            v / 0x4_0000 == a && v / 0x1000 % 0x40 == b && v / 0x40 % 0x40 == c && v % 0x40 == d
  {
    var v := a * 0x4_0000 + b * 0x1000 + c * 0x40 + d;
    assert v / 0x40 == a * 0x1000 + b * 0x40 + c;
    assert v / 0x1000 == a * 0x40 + b;
  }

  function Value(a: nat, b: nat, c: nat, d: nat): nat {
    a * 0x4_0000 + b * 0x1000 + c * 0x40 + d
  }

  lemma DecodedTwo(a: nat, b: nat)
    requires 0xC2 <= a <= 0xDF && 0x80 <= b <= 0xBF
    ensures var c := Value(0, 0, a - 0xC0, b - 0x80); Scalar(c) && Encoded(c) == [a, b]
  {
    Groups(0, 0, a - 0xC0, b - 0x80);
  }

  lemma DecodedThree(a: nat, b: nat, d: nat)
    requires 0xE0 <= a <= 0xEF && 0x80 <= b <= 0xBF && 0x80 <= d <= 0xBF
    requires (a == 0xE0 ==> 0xA0 <= b) && (a == 0xED ==> b <= 0x9F)
    ensures var c := Value(0, a - 0xE0, b - 0x80, d - 0x80); Scalar(c) && Encoded(c) == [a, b, d]
  {
    var c := Value(0, a - 0xE0, b - 0x80, d - 0x80);
    Groups(0, a - 0xE0, b - 0x80, d - 0x80);
    assert c / 0x1000 == a - 0xE0;
  }

  lemma DecodedFour(a: nat, b: nat, d: nat, e: nat)
    requires 0xF0 <= a <= 0xF4 && 0x80 <= b <= 0xBF && 0x80 <= d <= 0xBF && 0x80 <= e <= 0xBF
    requires (a == 0xF0 ==> 0x90 <= b) && (a == 0xF4 ==> b <= 0x8F)
    ensures var c := Value(a - 0xF0, b - 0x80, d - 0x80, e - 0x80); Scalar(c) && Encoded(c) == [a, b, d, e]
  {
    Groups(a - 0xF0, b - 0x80, d - 0x80, e - 0x80);
  }

  /** The scalar value of the first character. */
  lemma Decoded(s: seq<Byte>) returns (c: nat)
    requires FirstWidth(s) > 0
    ensures Scalar(c) && Encoded(c) == s[..FirstWidth(s)]
  {
    var w := FirstWidth(s);
    var n0: nat, n1: nat := s[0], if w > 1 then s[1] else 0;
    var n2: nat, n3: nat := if w > 2 then s[2] else 0, if w > 3 then s[3] else 0;
    if w == 1 {
      c := n0;
    } else {
      hide Value, Encoded, Scalar;
      if w == 2 {
        c := Value(0, 0, n0 - 0xC0, n1 - 0x80);
        DecodedTwo(n0, n1);
      } else if w == 3 {
        c := Value(0, n0 - 0xE0, n1 - 0x80, n2 - 0x80);
        DecodedThree(n0, n1, n2);
      } else {
        c := Value(n0 - 0xF0, n1 - 0x80, n2 - 0x80, n3 - 0x80);
        DecodedFour(n0, n1, n2, n3);
      }
    }
  }

  lemma {:induction false} TextIsValid(cs: seq<nat>)
    requires Scalars(cs)
    ensures ValidUtf8(Text(cs))
  {
    if cs != [] {
      hide FirstWidth, Encoded;
      var rest := Text(cs[1..]);
      TextIsValid(cs[1..]);
      EncodedWidth(cs[0], rest);
      assert (Encoded(cs[0]) + rest)[|Encoded(cs[0])|..] == rest;
    }
  }

  lemma {:induction false} ValidIsText(s: seq<Byte>) returns (cs: seq<nat>)
    requires ValidUtf8(s)
    ensures Scalars(cs) && Text(cs) == s
  {
    hide FirstWidth, Encoded;
    cs := [];
    if s != [] {
      var w := FirstWidth(s);
      var c := Decoded(s);
      var more := ValidIsText(s[w..]);
      cs := [c] + more;
      assert cs[1..] == more && s == s[..w] + s[w..];
    }
  }

  /** A name is accepted as text if and only if it spells a sequence of scalar values in UTF-8. */
  lemma TextIff(s: seq<Byte>)
    ensures ValidUtf8(s) <==> exists cs :: Scalars(cs) && Text(cs) == s
  {
    if ValidUtf8(s) {
      var cs := ValidIsText(s);
    } else {
      forall cs | Scalars(cs) ensures Text(cs) != s {
        TextIsValid(cs);
      }
    }
  }

  /** In particular every ASCII name is. */
  lemma {:induction false} AsciiIsText(s: seq<Byte>)
    requires forall i :: 0 <= i < |s| ==> s[i] < 128
    ensures ValidUtf8(s)
  {
    if s != [] {
      AsciiIsText(s[1..]);
    }
  }

  /** The name shown for bytes that are not text. */
  function InvalidName(): (b: seq<Byte>)
    ensures |b| == 14 && forall k :: 0 <= k < 14 ==> b[k] == "<invalid utf8>"[k] as int
  {
    [60, 105, 110, 118, 97, 108, 105, 100, 32, 117, 116, 102, 56, 62]
  }

  // ---------------------------------------------------------------------------
  // Header fields
  // ---------------------------------------------------------------------------

  /** The bytes before the first zero byte. */
  function UpToNul(s: seq<Byte>): seq<Byte> {
    if s == [] || s[0] == 0 then [] else [s[0]] + UpToNul(s[1..])
  }

  function NameOf(h: seq<Byte>): seq<Byte>
    requires |h| >= BLOCK
  {
    if ValidUtf8(UpToNul(h[..100])) then UpToNul(h[..100]) else InvalidName()
  }

  /** The format's name, ended by a zero byte or a space. */
  predicate HasMagic(h: seq<Byte>): (r: bool)
    requires |h| >= BLOCK
    ensures r <==>
            && h[257] == 'u' as int && h[258] == 's' as int && h[259] == 't' as int && h[260] == 'a' as int
            && h[261] == 'r' as int && (h[262] == 0 || h[262] == ' ' as int)
  {
    assert h[257..263] == [h[257], h[258], h[259], h[260], h[261], h[262]];
    h[257..263] == [117, 115, 116, 97, 114, 0] || h[257..263] == [117, 115, 116, 97, 114, 32]
  }

  /** The octal number in a field, after `acc`: bytes that are no octal digit are skipped. */
  function OctalAfter(acc: nat, f: seq<Byte>): nat
    decreases |f|
  {
    if f == [] || f[0] == 0 || f[0] == 32 then acc
    else if 48 <= f[0] <= 55 then OctalAfter(8 * acc + (f[0] - 48), f[1..])
    else OctalAfter(acc, f[1..])
  }

  method FileSize(field: seq<Byte>) returns (size: nat)
    ensures size == OctalAfter(0, field)
  {
    size := 0;
    var i := 0;
    while i < |field|
      invariant i <= |field| && OctalAfter(size, field[i..]) == OctalAfter(0, field)
    {
      assert field[i..][1..] == field[i + 1..];
      if field[i] == 0 || field[i] == 32 {
        return;
      }
      if 48 <= field[i] <= 55 {
        size := 8 * size + (field[i] - 48);
      }
      i := i + 1;
    }
  }

  function Pow8(n: nat): nat {
    if n == 0 then 1 else 8 * Pow8(n - 1)
  }

  /** The last `w` octal digits of a number. */
  function Digits(v: nat, w: nat): (d: seq<Byte>)
    ensures |d| == w
  {
    if w == 0 then [] else Digits(v / 8, w - 1) + [48 + v % 8]
  }

  lemma EightTimes(a: nat, p: nat)
    ensures a * (8 * p) == 8 * (a * p)
  {
  }

  lemma {:induction false} OctalAppend(acc: nat, v: nat, w: nat, rest: seq<Byte>)
    requires v < Pow8(w)
    ensures OctalAfter(acc, Digits(v, w) + rest) == OctalAfter(acc * Pow8(w) + v, rest)
    decreases w
  {
    if w == 0 {
      assert Digits(v, w) + rest == rest;
    } else {
      var last: Byte := 48 + v % 8;
      OctalAppend(acc, v / 8, w - 1, [last] + rest);
      assert Digits(v, w) + rest == Digits(v / 8, w - 1) + ([last] + rest);
      assert ([last] + rest)[1..] == rest;
      EightTimes(acc, Pow8(w - 1));
    }
  }

  /** A number written in octal and ended by a zero byte, a space or the field's end is read back. */
  lemma OctalRoundTrip(v: nat, w: nat, rest: seq<Byte>)
    requires v < Pow8(w) && (rest == [] || rest[0] == 0 || rest[0] == 32)
    ensures OctalAfter(0, Digits(v, w) + rest) == v
  {
    hide Pow8, Digits;
    OctalAppend(0, v, w, rest);
    assert 0 * Pow8(w) + v == v;
  }

  /** A byte of the field that is no digit and does not end it is passed over. */
  lemma {:induction false} OctalSkips(acc: nat, before: seq<Byte>, x: Byte, after: seq<Byte>)
    requires 0 !in before && 32 !in before && x != 0 && x != 32 && !(48 <= x <= 55)
    ensures OctalAfter(acc, before + [x] + after) == OctalAfter(acc, before + after)
    decreases |before|
  {
    if before == [] {
      assert before + [x] + after == [x] + after && before + after == after;
      assert ([x] + after)[1..] == after;
    } else {
      var d, rest := before[0], before[1..];
      OctalSkips(if 48 <= d <= 55 then 8 * acc + (d - 48) else acc, rest, x, after);
      assert (before + [x] + after)[1..] == rest + [x] + after;
      assert (before + after)[1..] == rest + after;
    }
  }

  lemma {:induction false} NameRoundTrip(name: seq<Byte>, rest: seq<Byte>)
    requires 0 !in name && (rest == [] || rest[0] == 0)
    ensures UpToNul(name + rest) == name
  {
    if name == [] {
      assert name + rest == rest;
    } else {
      NameRoundTrip(name[1..], rest);
      assert (name + rest)[1..] == name[1..] + rest;
    }
  }

  // ---------------------------------------------------------------------------
  // The iterator
  // ---------------------------------------------------------------------------

  function Padded(size: nat): nat {
    (size + 511) / 512 * 512
  }

  /** Whether there is a file at `offset`. */
  predicate FileAt(t: seq<Byte>, offset: nat) {
    offset + BLOCK <= |t| && t[offset] != 0 && HasMagic(t[offset..offset + BLOCK])
  }

  function SizeAt(t: seq<Byte>, offset: nat): nat
    requires offset + BLOCK <= |t|
  {
    OctalAfter(0, t[offset + 124..offset + 136])
  }

  function EntryAt(t: seq<Byte>, offset: nat): FileEntry
    requires offset + BLOCK <= |t|
  {
    var size := SizeAt(t, offset);
    var start := offset + BLOCK;
    FileEntry(NameOf(t[offset..start]), size, if start + size <= |t| then t[start..start + size] else [],
              t[offset + 156])
  }

  /** A file that the archive holds in full is given in full; one that is cut off keeps its size and is
      given no data at all. */
  lemma CutOffIff(t: seq<Byte>, offset: nat)
    requires offset + BLOCK <= |t| && SizeAt(t, offset) > 0
    ensures var e := EntryAt(t, offset);
            && e.size == SizeAt(t, offset)
            && (|e.data| == e.size <==> |t| - offset >= BLOCK + e.size) && (|e.data| != e.size ==> e.data == [])
            && forall k :: 0 <= k < |e.data| ==> e.data[k] == t[offset + BLOCK + k]
  {
  }

  /** All files from `offset` on, for any bytes whatever. */
  function Files(t: seq<Byte>, offset: nat): (fs: seq<FileEntry>)
    decreases |t| - offset
  {
    if FileAt(t, offset) then [EntryAt(t, offset)] + Files(t, offset + BLOCK + Padded(SizeAt(t, offset))) else []
  }

  lemma FilesNext(t: seq<Byte>, offset: nat, e: FileEntry, padded: nat)
    requires FileAt(t, offset) && EntryAt(t, offset) == e && Padded(SizeAt(t, offset)) == padded
    ensures Files(t, offset) == [e] + Files(t, offset + BLOCK + padded)
  {
    hide FileAt, EntryAt, SizeAt, Padded;
  }

  lemma FilesEnd(t: seq<Byte>, offset: nat)
    ensures !FileAt(t, offset) ==> Files(t, offset) == []
  {
  }

  class TarIterator {
    const data: seq<Byte>
    var offset: nat

    constructor (data: seq<Byte>)
      ensures this.data == data && offset == 0
    {
      this.data := data;
      offset := 0;
    }

    /** Yields the files in order; after the last one it stays where it is. */
    method Next() returns (r: Option<FileEntry>)
      modifies this
      ensures r.None? ==> offset == old(offset) && Files(data, offset) == []
      ensures r.Some? ==> offset >= old(offset) + BLOCK && old(offset) + BLOCK <= |data|
      ensures r.Some? ==> Files(data, old(offset)) == [r.value] + Files(data, offset)
    {
      hide OctalAfter, NameOf, HasMagic, Padded, Files;
      FilesEnd(data, offset);
      if offset + BLOCK > |data| {
        return None;
      }
      var header := data[offset..offset + BLOCK];
      SubSlice(data, offset, BLOCK, 124, 136);
      if header[0] == 0 {
        return None;
      }
      if !HasMagic(header) {
        return None;
      }
      var fileSize := FileSize(header[124..136]);
      var dataStart := offset + BLOCK;
      var slice := if dataStart + fileSize <= |data| then data[dataStart..dataStart + fileSize] else [];
      r := Some(FileEntry(NameOf(header), fileSize, slice, header[156]));
      FilesNext(data, offset, r.value, Padded(fileSize));
      offset := dataStart + Padded(fileSize);
    }
  }

  /** The first file of that name. */
  method Find(t: seq<Byte>, target: seq<Byte>) returns (r: Option<FileEntry>)
    ensures r.None? ==> forall k :: 0 <= k < |Files(t, 0)| ==> Files(t, 0)[k].name != target
    ensures r.Some? ==> exists k :: 0 <= k < |Files(t, 0)| && Files(t, 0)[k] == r.value && r.value.name == target &&
                                     forall j :: 0 <= j < k ==> Files(t, 0)[j].name != target
  {
    var it := new TarIterator(t);
    ghost var all, n := Files(t, 0), 0;
    assert all[0..] == all;
    while true
      invariant it.data == t && n <= |all| && all[n..] == Files(t, it.offset)
      invariant forall k :: 0 <= k < n ==> all[k].name != target
      invariant fresh(it)
      decreases |t| - it.offset
    {
      ghost var before := it.offset;
      var next := it.Next();
      if next.None? {
        return None;
      }
      assert all[n..][0] == all[n] && all[n..][1..] == all[n + 1..];
      assert Files(t, it.offset) == ([next.value] + Files(t, it.offset))[1..];
      if next.value.name == target {
        assert all[n] == next.value;
        return next;
      }
      n := n + 1;
    }
  }

  // ---------------------------------------------------------------------------
  // Archives
  // ---------------------------------------------------------------------------

  /** A member of an archive. The header fields the kernel does not read, and the bytes after a
      field's end, are arbitrary. */
  datatype Member = Member(name: seq<Byte>, nameRest: seq<Byte>, owner: seq<Byte>, width: nat, sizeRest: seq<Byte>,
                           times: seq<Byte>,
                           typeflag: Byte, link: seq<Byte>, gnu: bool, others: seq<Byte>, data: seq<Byte>,
                               padding: seq<Byte>)

  predicate Fits(m: Member) {
    && m.name != [] && 0 !in m.name && |m.name| + |m.nameRest| == 100 && (m.nameRest == [] || m.nameRest[0] == 0)
    && |m.owner| == 24
    && |m.data| < Pow8(m.width) && m.width + |m.sizeRest| == 12 &&
        (m.sizeRest == [] || m.sizeRest[0] == 0 || m.sizeRest[0] == 32)
    && |m.times| == 20 && |m.link| == 100 && |m.others| == 249
    && |m.padding| < BLOCK && (|m.data| + |m.padding|) % BLOCK == 0
  }

  function Magic(gnu: bool): seq<Byte> {
    [117, 115, 116, 97, 114] + [if gnu then 32 else 0]
  }

  /** The header block, field by field. */
  function Header(m: Member): (h: seq<Byte>)
    requires Fits(m)
    ensures |h| == BLOCK
  {
    m.name + m.nameRest + m.owner + (Digits(|m.data|, m.width) + m.sizeRest) + m.times + [m.typeflag] + m.link +
        Magic(m.gnu) + m.others
  }

  function Archive(ms: seq<Member>): seq<Byte>
    requires forall k :: 0 <= k < |ms| ==> Fits(ms[k])
  {
    if ms == [] then [] else Header(ms[0]) + ms[0].data + ms[0].padding + Archive(ms[1..])
  }

  /** What the iterator should yield for a member. */
  function Entry(m: Member): FileEntry {
    FileEntry(if ValidUtf8(m.name) then m.name else InvalidName(), |m.data|, m.data, m.typeflag)
  }

  function Entries(ms: seq<Member>): (es: seq<FileEntry>)
    ensures |es| == |ms| && forall k :: 0 <= k < |ms| ==> es[k] == Entry(ms[k])
  {
    if ms == [] then [] else [Entry(ms[0])] + Entries(ms[1..])
  }

  lemma Middle<T>(a: seq<T>, b: seq<T>, c: seq<T>)
    ensures (a + b + c)[|a|..|a| + |b|] == b
  {
  }

  lemma PaddedIs(size: nat, padding: nat)
    requires padding < BLOCK && (size + padding) % BLOCK == 0
    ensures Padded(size) == size + padding
  {
  }

  lemma HeaderFields(m: Member)
    requires Fits(m)
    ensures var h := Header(m);
            && h[0] != 0 && h[..100] == m.name + m.nameRest
            && h[124..136] == Digits(|m.data|, m.width) + m.sizeRest
            && h[156] == m.typeflag && h[257..263] == Magic(m.gnu)
  {
    hide Digits, Magic, Padded, Pow8;
    var h := Header(m);
    var digits := Digits(|m.data|, m.width) + m.sizeRest;
    var tail := m.times + [m.typeflag] + m.link + Magic(m.gnu) + m.others;
    assert h[0] == m.name[0];
    assert h == m.name + m.nameRest + m.owner + digits + tail;
    Middle(m.name + m.nameRest + m.owner, digits, tail);
    var front := m.name + m.nameRest + m.owner + digits + m.times + [m.typeflag] + m.link;
    Middle(front, Magic(m.gnu), m.others);
  }

  /** A header block and the data after it say what the member is. */
  lemma MemberAt(t: seq<Byte>, o: nat, m: Member)
    requires Fits(m) && o + BLOCK + |m.data| <= |t|
    requires t[o..o + BLOCK] == Header(m) && t[o + BLOCK..o + BLOCK + |m.data|] == m.data
    ensures FileAt(t, o) && EntryAt(t, o) == Entry(m) && Padded(SizeAt(t, o)) == |m.data| + |m.padding|
  {
    hide Header, ValidUtf8, Padded, OctalAfter, UpToNul, Digits, Pow8, FirstWidth;
    HeaderFields(m);
    SubSlice(t, o, BLOCK, 124, 136);
    OctalRoundTrip(|m.data|, m.width, m.sizeRest);
    PaddedIs(|m.data|, |m.padding|);
    NameRoundTrip(m.name, m.nameRest);
    assert t[o] == Header(m)[0] && t[o + 156] == Header(m)[156];
  }

  /** A member is read back wherever it stands in the archive. */
  lemma MemberRoundTrip(before: seq<Byte>, m: Member, after: seq<Byte>)
    requires Fits(m)
    ensures var t := before + (Header(m) + m.data + m.padding) + after;
            && FileAt(t, |before|) && EntryAt(t, |before|) == Entry(m) &&
                Padded(SizeAt(t, |before|)) == |m.data| + |m.padding|
  {
    hide Header, FileAt, EntryAt, SizeAt, Entry, Fits, Padded;
    var t := before + (Header(m) + m.data + m.padding) + after;
    var h := Header(m);
    assert t == before + h + (m.data + m.padding + after);
    Middle(before, h, m.data + m.padding + after);
    assert t == (before + h) + m.data + (m.padding + after);
    Middle(before + h, m.data, m.padding + after);
    MemberAt(t, |before|, m);
  }

  /** Iterating over any serialised list of members yields exactly those members, in order, and
      then whatever follows. */
  lemma {:induction false} ArchiveRoundTrip(before: seq<Byte>, ms: seq<Member>, after: seq<Byte>)
    requires forall k :: 0 <= k < |ms| ==> Fits(ms[k])
    ensures var t := before + Archive(ms) + after;
            Files(t, |before|) == Entries(ms) + Files(t, |before| + |Archive(ms)|)
    decreases |ms|
  {
    hide Header, EntryAt, FileAt, Padded, Entry, SizeAt;
    var t := before + Archive(ms) + after;
    if ms != [] {
      var m := ms[0];
      var block, rest := Header(m) + m.data + m.padding, Archive(ms[1..]);
      MemberRoundTrip(before, m, rest + after);
      ArchiveRoundTrip(before + block, ms[1..], after);
      assert t == before + block + (rest + after);
      assert t == before + block + rest + after;
      FilesNext(t, |before|, Entry(m), |m.data| + |m.padding|);
    }
  }

  lemma NothingAfter(a: seq<Byte>, after: seq<Byte>)
    requires |after| < BLOCK || after[0] == 0
    ensures Files(a + after, |a|) == []
  {
    assert |after| > 0 ==> (a + after)[|a|] == after[0];
    FilesEnd(a + after, |a|);
  }

  /** A whole archive: its files are its members when it ends after them, or goes on with a zero
      block as the format prescribes. */
  lemma FilesOfArchive(ms: seq<Member>, after: seq<Byte>)
    requires forall k :: 0 <= k < |ms| ==> Fits(ms[k])
    requires |after| < BLOCK || after[0] == 0
    ensures Files(Archive(ms) + after, 0) == Entries(ms)
  {
    hide Archive, Files, FileAt, Entries, Fits;
    ArchiveRoundTrip([], ms, after);
    assert [] + Archive(ms) == Archive(ms);
    NothingAfter(Archive(ms), after);
  }

  /** Whether the kernel accepts the bytes as a ramdisk. */
  predicate Opens(t: seq<Byte>) {
    |t| >= BLOCK && HasMagic(t[..BLOCK])
  }

  lemma MemberOpens(m: Member, after: seq<Byte>)
    requires Fits(m)
    ensures Opens(Header(m) + after)
  {
    hide Header, Fits;
    HeaderFields(m);
    assert (Header(m) + after)[..BLOCK] == Header(m);
  }

  /** An archive is accepted exactly when it has a member: one that holds only its end marker is not. */
  lemma OpensIffNonempty(ms: seq<Member>, end: seq<Byte>)
    requires forall k :: 0 <= k < |ms| ==> Fits(ms[k])
    requires forall k :: 0 <= k < |end| ==> end[k] == 0
    ensures Opens(Archive(ms) + end) <==> ms != []
  {
    hide Header, Fits, Padded, Opens;
    var t := Archive(ms) + end;
    if ms != [] {
      var m := ms[0];
      var after := m.data + m.padding + Archive(ms[1..]) + end;
      MemberOpens(m, after);
      assert t == Header(m) + after;
    } else {
      assert t == end;
      NoMagic(end);
    }
  }

  lemma NoMagic(t: seq<Byte>)
    requires forall k :: 0 <= k < |t| ==> t[k] == 0
    ensures !Opens(t)
  {
    if |t| >= BLOCK {
      assert t[..BLOCK][257..263][0] == t[..BLOCK][257] == 0;
    }
  }
}
