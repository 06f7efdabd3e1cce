/** Fixed-width integers, byte strings and the big-endian encodings the node relies on. */
module Basics {

  const TWO32: nat := 0x1_0000_0000
  const TWO63: nat := 0x8000_0000_0000_0000
  const TWO64: nat := 0x1_0000_0000_0000_0000
  const TWO128: nat := 0x1_0000_0000_0000_0000_0000_0000_0000_0000
  const TWO256: nat :=
    0x1_0000_0000_0000_0000_0000_0000_0000_0000_0000_0000_0000_0000_0000_0000_0000_0000

  type Byte = b: nat | b < 256
  type U32 = x: nat | x < TWO32
  type U64 = x: nat | x < TWO64
  /** A 256-bit stack word. */
  type Word = x: nat | x < TWO256
  /** A 32-byte hash, read as the big-endian number its bytes spell. */
  type Hash = x: nat | x < TWO256
  type Address = a: seq<Byte> | |a| == 20 witness seq(20, _ => 0)

  datatype Option<+T> = None | Some(value: T)

  // ---- powers ---------------------------------------------------------------

  function Pow2(k: nat): (p: nat)
    ensures p >= 1
  {
    if k == 0 then 1 else 2 * Pow2(k - 1)
  }

  function Pow256(k: nat): (p: nat)
    ensures p >= 1
  {
    if k == 0 then 1 else 256 * Pow256(k - 1)
  }

  lemma {:induction false} Pow256Add(i: nat, j: nat)
    ensures Pow256(i + j) == Pow256(i) * Pow256(j)
  {
    if i == 0 {
    } else {
      Pow256Add(i - 1, j);
      assert Pow256(i + j) == 256 * (Pow256(i - 1) * Pow256(j));
    }
  }

  lemma Pow256Word()
    ensures Pow256(32) == TWO256
  {
    assert Pow256(4) == TWO32;
    Pow256Add(4, 4);
    Pow256Add(8, 8);
    Pow256Add(16, 16);
    assert Pow256(8) == TWO64;
    assert Pow256(16) == TWO128;
  }

  // ---- big-endian numbers ---------------------------------------------------

  /** The number a byte string spells, most significant byte first. */
  function FromBytes(bs: seq<Byte>): nat {
    if bs == [] then 0 else 256 * FromBytes(bs[..|bs| - 1]) + bs[|bs| - 1]
  }

  /** The shortest big-endian spelling; zero is the empty string. */
  function BytesOf(v: nat): seq<Byte> {
    if v == 0 then [] else BytesOf(v / 256) + [v % 256]
  }

  function Zeros(n: nat): (z: seq<Byte>)
    ensures |z| == n
    ensures forall i :: 0 <= i < n ==> z[i] == 0
  {
    seq(n, _ => 0)
  }

  /** The parts one after the other. */
  function Concat(parts: seq<seq<Byte>>): seq<Byte> {
    if parts == [] then [] else Concat(parts[..|parts| - 1]) + parts[|parts| - 1]
  }

  lemma {:induction false} BytesRoundTrip(v: nat)
    ensures FromBytes(BytesOf(v)) == v
  {
    if v == 0 {
    } else {
      BytesRoundTrip(v / 256);
      var bs := BytesOf(v);
      assert bs[..|bs| - 1] == BytesOf(v / 256);
    }
  }

  /** The spelling needs at most `k` bytes exactly when the number is below 256^k. */
  lemma {:induction false} BytesLength(v: nat, k: nat)
    ensures |BytesOf(v)| <= k <==> v < Pow256(k)
  {
    if v == 0 || k == 0 {
    } else {
      BytesLength(v / 256, k - 1);
      assert v < 256 * Pow256(k - 1) <==> v / 256 < Pow256(k - 1);
    }
  }

  lemma {:induction false} LeadingZeros(n: nat, bs: seq<Byte>)
    ensures FromBytes(Zeros(n) + bs) == FromBytes(bs)
  {
    if bs == [] {
      assert Zeros(n) + bs == Zeros(n);
      if n > 0 {
        LeadingZeros(n - 1, []);
        assert Zeros(n)[..n - 1] == Zeros(n - 1) + [];
      }
    } else {
      LeadingZeros(n, bs[..|bs| - 1]);
      assert (Zeros(n) + bs)[..n + |bs| - 1] == Zeros(n) + bs[..|bs| - 1];
    }
  }

  lemma {:induction false} FromBytesBound(bs: seq<Byte>)
    ensures FromBytes(bs) < Pow256(|bs|)
  {
    if bs == [] {
    } else {
      FromBytesBound(bs[..|bs| - 1]);
    }
  }

  /** Spellings of equal length are unique. */
  lemma {:induction false} FromBytesInjective(a: seq<Byte>, b: seq<Byte>)
    requires |a| == |b|
    requires FromBytes(a) == FromBytes(b)
    ensures a == b
  {
    if a == [] {
    } else {
      var n := |a| - 1;
      FromBytesInjective(a[..n], b[..n]);
      assert a == a[..n] + [a[n]];
      assert b == b[..n] + [b[n]];
    }
  }

  /** Each byte of a spelling is the corresponding base-256 digit. */
  lemma {:induction false} DigitAt(bs: seq<Byte>, i: nat)
    requires i < |bs|
    ensures FromBytes(bs) / Pow256(|bs| - 1 - i) % 256 == bs[i]
  {
    var n := |bs| - 1;
    if i == n {
    } else {
      DigitAt(bs[..n], i);
      var v, p := FromBytes(bs[..n]), Pow256(n - 1 - i);
      assert Pow256(n - i) == 256 * p;
      DivNested(256 * v + bs[n], p);
      Split(v, 256, bs[n]);
    }
  }

  /** Quotient and remainder of a number written as one. */
  lemma Split(q: nat, d: nat, r: nat)
    requires r < d
    ensures (d * q + r) / d == q && (d * q + r) % d == r
  {
    DivUnique(d * q + r, d, q, r);
    assert d * q + r == d * ((d * q + r) / d) + (d * q + r) % d;
  }

  lemma DivNested(x: nat, p: nat)
    requires p > 0
    ensures x / (256 * p) == x / 256 / p
  {
    var q := x / 256;
    var q', r' := q / p, q % p;
    assert q == p * q' + r';
    assert x == (256 * p) * q' + (256 * r' + x % 256);
    DivUnique(x, 256 * p, q', 256 * r' + x % 256);
  }

  lemma DivUnique(x: nat, d: nat, q: nat, r: nat)
    requires d > 0 && x == d * q + r && r < d
    ensures x / d == q
  {
    var k := x / d;
    assert x == d * k + x % d;
    assert d * (k - q) == r - x % d;
    MulSmall(d, k - q);
  }

  lemma DivLe(x: nat, d: nat)
    requires d > 0
    ensures x / d <= x
  {
    var q := x / d;
    assert x == d * q + x % d;
    MulGe(d, q);
  }

  lemma MulGe(d: nat, q: nat)
    requires d > 0
    ensures d * q >= q
  {}

  lemma MulSmall(d: int, k: int)
    requires -d < d * k < d
    ensures k == 0
  {}

  lemma MulOrder(i: nat, j: nat, p: nat)
    requires p > 0
    ensures i * p < j * p <==> i < j
    ensures i * p == j * p <==> i == j
  {
    if i < j {
      assert j * p == i * p + (j - i) * p;
    } else if j < i {
      assert i * p == j * p + (i - j) * p;
    }
  }

  /** The 32-byte form used for memory words and storage keys: strip, then right-align. */
  function Pad32(v: Word): (bs: seq<Byte>)
    ensures |bs| == 32
    ensures FromBytes(bs) == v
  {
    var b := BytesOf(v);
    BytesLength(v, 32);
    Pow256Word();
    BytesRoundTrip(v);
    LeadingZeros(32 - |b|, b);
    Zeros(32 - |b|) + b
  }

  lemma Pad32Digit(v: Word, i: nat)
    requires i < 32
    ensures Pad32(v)[i] == v / Pow256(31 - i) % 256
  {
    DigitAt(Pad32(v), i);
  }

  lemma Pad32Unique(bs: seq<Byte>)
    requires |bs| == 32
    ensures FromBytes(bs) < TWO256
    ensures Pad32(FromBytes(bs)) == bs
  {
    FromBytesBound(bs);
    Pow256Word();
    FromBytesInjective(Pad32(FromBytes(bs)), bs);
  }

  // ---- bitwise operations on naturals ----------------------------------------

  function BitAnd(x: nat, y: nat): nat {
    if x == 0 || y == 0 then 0
    else 2 * BitAnd(x / 2, y / 2) + (if x % 2 == 1 && y % 2 == 1 then 1 else 0)
  }

  function BitOr(x: nat, y: nat): nat
    decreases x + y
  {
    if x == 0 then y else if y == 0 then x
    else 2 * BitOr(x / 2, y / 2) + (if x % 2 == 1 || y % 2 == 1 then 1 else 0)
  }

  predicate Bit(x: nat, i: nat) {
    if i == 0 then x % 2 == 1 else Bit(x / 2, i - 1)
  }

  lemma {:induction false} ZeroBits(i: nat)
    ensures !Bit(0, i)
  {
    if i == 0 {
    } else {
      ZeroBits(i - 1);
    }
  }

  lemma {:induction false} BitAndBits(x: nat, y: nat, i: nat)
    ensures Bit(BitAnd(x, y), i) == (Bit(x, i) && Bit(y, i))
    decreases i
  {
    if x == 0 || y == 0 {
      ZeroBits(i);
    } else {
      Split(BitAnd(x / 2, y / 2), 2, if x % 2 == 1 && y % 2 == 1 then 1 else 0);
      if i > 0 {
        BitAndBits(x / 2, y / 2, i - 1);
      }
    }
  }

  lemma {:induction false} BitOrBits(x: nat, y: nat, i: nat)
    ensures Bit(BitOr(x, y), i) == (Bit(x, i) || Bit(y, i))
    decreases i
  {
    if x == 0 || y == 0 {
      ZeroBits(i);
    } else {
      Split(BitOr(x / 2, y / 2), 2, if x % 2 == 1 || y % 2 == 1 then 1 else 0);
      if i > 0 {
        BitOrBits(x / 2, y / 2, i - 1);
      }
    }
  }
}
