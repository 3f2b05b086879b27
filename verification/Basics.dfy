/** Bytes, little-endian fields and optional values. */
module Basics {
  type Byte = b: int | 0 <= b < 256

  /** Machine words are below this. */
  const ADDRESS_LIMIT: nat := 0x1_0000_0000_0000_0000

  datatype Option<+T> = None | Some(value: T)

  /** The little-endian number in the `n` bytes from `o` on. */
  function Le(b: seq<Byte>, o: nat, n: nat): nat
    requires o + n <= |b|
    decreases n
  {
    if n == 0 then 0 else (b[o] as int) + 256 * Le(b, o + 1, n - 1)
  }

  function Pow256(n: nat): nat {
    if n == 0 then 1 else 256 * Pow256(n - 1)
  }

  lemma Pow256Values()
    ensures Pow256(2) == 0x1_0000 && Pow256(4) == 0x1_0000_0000 && Pow256(8) == ADDRESS_LIMIT == 0x1_0000_0000_0000_0000
  {
    assert Pow256(1) == 256 && Pow256(3) == 0x100_0000 && Pow256(5) == 0x100_0000_0000 &&
           Pow256(6) == 0x1_0000_0000_0000;
    assert Pow256(7) == 0x100_0000_0000_0000;
  }

  lemma {:induction false} LeBound(b: seq<Byte>, o: nat, n: nat)
    requires o + n <= |b|
    ensures Le(b, o, n) < Pow256(n)
    decreases n
  {
    if n > 0 {
      LeBound(b, o + 1, n - 1);
    }
  }

  /** The first byte of a field weighs least, in fields of two, four and eight bytes alike. */
  lemma LeWeights(b: seq<Byte>, o: nat)
    ensures o + 2 <= |b| ==> Le(b, o, 2) == b[o] as int + 0x100 * (b[o + 1] as int)
    ensures o + 4 <= |b| ==> Le(b, o, 4) == Le(b, o, 2) + 0x1_0000 * Le(b, o + 2, 2)
    ensures o + 8 <= |b| ==> Le(b, o, 8) == Le(b, o, 4) + 0x1_0000_0000 * Le(b, o + 4, 4)
  {
    if o + 2 <= |b| {
      LeSplit(b, o, 1, 1);
    }
    if o + 4 <= |b| {
      LeSplit(b, o, 2, 2);
    }
    if o + 8 <= |b| {
      LeSplit(b, o, 4, 4);
    }
    Pow256Values();
  }

  lemma {:induction false} LeSplit(b: seq<Byte>, o: nat, n: nat, m: nat)
    requires o + n + m <= |b|
    ensures Le(b, o, n + m) == Le(b, o, n) + Pow256(n) * Le(b, o + n, m)
    decreases n
  {
    if n > 0 {
      LeSplit(b, o + 1, n - 1, m);
      hide Le, Pow256;
      UnfoldedLe(b, o, n, m);
      Scaled(Pow256(n - 1), Le(b, o + n, m));
    }
  }

  lemma UnfoldedLe(b: seq<Byte>, o: nat, n: nat, m: nat)
    requires o + n + m <= |b| && n > 0
    ensures Le(b, o, n + m) == b[o] as int + 256 * Le(b, o + 1, n - 1 + m)
    ensures Le(b, o, n) == b[o] as int + 256 * Le(b, o + 1, n - 1) && Pow256(n) == 256 * Pow256(n - 1)
  {
  }

  lemma Scaled(p: nat, h: nat)
    ensures 256 * (p * h) == 256 * p * h
  {
  }

  /** A field depends only on its own bytes. */
  lemma {:induction false} LeMoved(b: seq<Byte>, o: nat, c: seq<Byte>, p: nat, n: nat)
    requires o + n <= |b| && p + n <= |c| && b[o..o + n] == c[p..p + n]
    ensures Le(b, o, n) == Le(c, p, n)
    decreases n
  {
    if n > 0 {
      assert b[o] == b[o..o + n][0] && c[p] == c[p..p + n][0];
      assert b[o + 1..o + n] == b[o..o + n][1..] && c[p + 1..p + n] == c[p..p + n][1..];
      LeMoved(b, o + 1, c, p + 1, n - 1);
    }
  }

  /** The `n` little-endian bytes of a number. */
  function ToLe(v: nat, n: nat): (b: seq<Byte>)
    ensures |b| == n
    decreases n
  {
    if n == 0 then [] else [v % 256] + ToLe(v / 256, n - 1)
  }

  lemma {:induction false} LeOfToLe(v: nat, n: nat)
    requires v < Pow256(n)
    ensures Le(ToLe(v, n), 0, n) == v
    decreases n
  {
    if n > 0 {
      LeOfToLe(v / 256, n - 1);
      LeMoved(ToLe(v, n), 1, ToLe(v / 256, n - 1), 0, n - 1);
    }
  }

  /** A field written between other bytes is read back. */
  lemma LeField(before: seq<Byte>, v: nat, n: nat, after: seq<Byte>)
    requires v < Pow256(n)
    ensures Le(before + ToLe(v, n) + after, |before|, n) == v
  {
    LeOfToLe(v, n);
    LeMoved(before + ToLe(v, n) + after, |before|, ToLe(v, n), 0, n);
  }

  lemma SubSlice(t: seq<Byte>, o: nat, n: nat, a: nat, b: nat)
    requires o + n <= |t| && a <= b <= n
    ensures t[o..o + n][a..b] == t[o + a..o + b]
  {
    var s := t[o..o + n];
    assert forall k :: 0 <= k < n ==> s[k] == t[o + k];
    assert forall k :: 0 <= k < b - a ==> s[a..b][k] == s[a + k];
  }
}
