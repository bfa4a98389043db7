/** Octets and 32-bit words as numbers, and exclusive-or on them. */
module Bytes {

  type byte = x: int | 0 <= x < 256

  const WORD := 0x1_0000_0000

  function Pow2(k: nat): nat {
    if k == 0 then 1 else 2 * Pow2(k - 1)
  }

  /** Bitwise exclusive-or of two non-negative numbers of any width. */
  function Xor(a: nat, b: nat): nat
    decreases a + b
  {
    if a == 0 && b == 0 then 0 else 2 * Xor(a / 2, b / 2) + (a + b) % 2
  }

  lemma XorUnfold(a: nat, b: nat)
    ensures Xor(a, b) == 2 * Xor(a / 2, b / 2) + (a + b) % 2
  {
  }

  lemma Parity(q: nat, a: nat, b: nat)
    ensures (2 * q + (a + b) % 2) / 2 == q
    ensures (2 * q + (a + b) % 2 + b) % 2 == a % 2
  {
  }

  lemma {:induction false} XorInvolution(a: nat, b: nat)
    ensures Xor(Xor(a, b), b) == a
    decreases a + b
  {
    if a != 0 || b != 0 {
      XorInvolution(a / 2, b / 2);
      var q := Xor(a / 2, b / 2);
      var x := 2 * q + (a + b) % 2;
      Parity(q, a, b);
      assert Xor(a, b) == x by { XorUnfold(a, b); }
      assert Xor(x, b) == 2 * Xor(x / 2, b / 2) + (x + b) % 2 by { XorUnfold(x, b); }
    }
  }

  lemma {:induction false} XorZero(a: nat)
    ensures Xor(a, 0) == a
  {
    if a != 0 {
      XorZero(a / 2);
    }
  }

  lemma {:induction false} XorBound(a: nat, b: nat, k: nat)
    requires a < Pow2(k) && b < Pow2(k)
    ensures Xor(a, b) < Pow2(k)
  {
    if k > 0 {
      XorBound(a / 2, b / 2, k - 1);
    }
  }

  lemma HalveSum(lo: nat, x: nat)
    ensures (lo + 2 * x) / 2 == lo / 2 + x && (lo + 2 * x) % 2 == lo % 2
  {
  }

  /** The bit of weight 2^k. */
  predicate Bit(n: nat, k: nat)
    decreases k
  {
    if k == 0 then n % 2 == 1 else Bit(n / 2, k - 1)
  }

  lemma OddSum(a: nat, b: nat)
    ensures (a + b) % 2 == 1 <==> (a % 2 == 1 <==> b % 2 == 0)
  {
  }

  lemma XorHalves(a: nat, b: nat)
    ensures Xor(a, b) / 2 == Xor(a / 2, b / 2) && Xor(a, b) % 2 == (a + b) % 2
  {
    XorUnfold(a, b);
    HalveSum((a + b) % 2, Xor(a / 2, b / 2));
  }

  /** Bit by bit, exclusive-or is inequality. */
  lemma {:induction false} XorBit(a: nat, b: nat, k: nat)
    ensures Bit(Xor(a, b), k) <==> (Bit(a, k) <==> !Bit(b, k))
    decreases k
  {
    XorHalves(a, b);
    if k == 0 {
      OddSum(a, b);
    } else {
      XorBit(a / 2, b / 2, k - 1);
    }
  }

  /** n shifted left by k bits. */
  function Shift(n: nat, k: nat): nat
    decreases k, n
  {
    if k == 0 then n else 2 * Shift(n, k - 1)
  }

  lemma ShiftByte(n: nat)
    ensures Shift(n, 8) == 256 * n
  {
    assert Shift(n, 0) == n;
    assert Shift(n, 2) == 4 * Shift(n, 0);
    assert Shift(n, 4) == 4 * Shift(n, 2);
    assert Shift(n, 6) == 4 * Shift(n, 4);
  }

  lemma Halves(lo: nat, x: nat, klo: nat, y: nat)
    ensures (lo + 2 * x) / 2 == lo / 2 + x && (klo + 2 * y) / 2 == klo / 2 + y
    ensures (lo + 2 * x + (klo + 2 * y)) % 2 == (lo + klo) % 2
  {
    HalveSum(lo, x);
    HalveSum(klo, y);
    HalveSum(lo + klo, x + y);
    assert lo + 2 * x + (klo + 2 * y) == lo + klo + 2 * (x + y);
  }

  lemma XorFrom(a: nat, b: nat, half: nat, bit: nat)
    requires Xor(a / 2, b / 2) == half && (a + b) % 2 == bit
    ensures Xor(a, b) == 2 * half + bit
  {
    XorUnfold(a, b);
  }

  lemma XorStep(lo: nat, x: nat, klo: nat, y: nat, z: nat)
    requires Xor(lo / 2 + x, klo / 2 + y) == Xor(lo / 2, klo / 2) + z
    ensures Xor(lo + 2 * x, klo + 2 * y) == Xor(lo, klo) + 2 * z
  {
    var half, bit := Xor(lo / 2, klo / 2), (lo + klo) % 2;
    Halves(lo, x, klo, y);
    XorFrom(lo + 2 * x, klo + 2 * y, half + z, bit);
    XorFrom(lo, klo, half, bit);
  }

  lemma HalfBound(n: nat, k: nat)
    requires k > 0 && n < Pow2(k)
    ensures n / 2 < Pow2(k - 1)
  {
  }

  /** Exclusive-or acts on the low k bits and on the bits above them independently. */
  lemma {:induction false} XorSplit(lo: nat, hi: nat, klo: nat, khi: nat, k: nat)
    requires lo < Pow2(k) && klo < Pow2(k)
    ensures Xor(lo + Shift(hi, k), klo + Shift(khi, k)) == Xor(lo, klo) + Shift(Xor(hi, khi), k)
    decreases k
  {
    if k > 0 {
      var high := Xor(hi, khi);
      var x, y, z := Shift(hi, k - 1), Shift(khi, k - 1), Shift(high, k - 1);
      assert Xor(lo / 2 + x, klo / 2 + y) == Xor(lo / 2, klo / 2) + z by {
        HalfBound(lo, k);
        HalfBound(klo, k);
        XorSplit(lo / 2, hi, klo / 2, khi, k - 1);
      }
      assert Xor(lo + 2 * x, klo + 2 * y) == Xor(lo, klo) + 2 * z by { XorStep(lo, x, klo, y, z); }
      assert lo + Shift(hi, k) == lo + 2 * x && klo + Shift(khi, k) == klo + 2 * y && Shift(high, k) == 2 * z;
    }
  }

  /** Exclusive-or of two octets. */
  function XorByte(a: byte, b: byte): byte {
    XorBound(a, b, 8);
    Xor(a, b)
  }

  /** A low octet and what lies above it. */
  function Above(lo: byte, hi: nat): nat {
    lo + 256 * hi
  }

  /** The word that a 32-bit load of four consecutive octets yields (little-endian host). */
  function LoadWord(a: byte, b: byte, c: byte, d: byte): nat {
    Above(a, Above(b, Above(c, d)))
  }

  /** The octets, in memory order, of a word stored on a little-endian host. */
  function StoreWord(w: nat): (b: seq<byte>)
    ensures |b| == 4
  {
    [w % 256, w / 256 % 256, w / 256 / 256 % 256, w / 256 / 256 / 256 % 256]
  }

  lemma LowByte(lo: byte, hi: nat)
    ensures Above(lo, hi) % 256 == lo && Above(lo, hi) / 256 == hi
  {
  }

  lemma StoreLoad(a: byte, b: byte, c: byte, d: byte)
    ensures StoreWord(LoadWord(a, b, c, d)) == [a, b, c, d]
  {
    LowByte(a, Above(b, Above(c, d)));
    LowByte(b, Above(c, d));
    LowByte(c, d);
  }

  lemma XorLowByte(lo: byte, hi: nat, klo: byte, khi: nat)
    ensures Xor(Above(lo, hi), Above(klo, khi)) == Above(XorByte(lo, klo), Xor(hi, khi))
  {
    var low, high := Xor(lo, klo), Xor(hi, khi);
    assert Xor(lo + Shift(hi, 8), klo + Shift(khi, 8)) == low + Shift(high, 8) by {
      ByteBound();
      XorSplit(lo, hi, klo, khi, 8);
    }
    assert lo + Shift(hi, 8) == Above(lo, hi) by { ShiftByte(hi); }
    assert klo + Shift(khi, 8) == Above(klo, khi) by { ShiftByte(khi); }
    assert low + Shift(high, 8) == Above(XorByte(lo, klo), high) by { ShiftByte(high); }
  }

  lemma ByteBound()
    ensures Pow2(8) == 256
  {
    assert Pow2(4) == 16;
  }

  lemma XorParts(a: byte, b: byte, c: byte, d: byte, k0: byte, k1: byte, k2: byte, k3: byte)
    ensures Xor(LoadWord(a, b, c, d), LoadWord(k0, k1, k2, k3))
         == LoadWord(XorByte(a, k0), XorByte(b, k1), XorByte(c, k2), XorByte(d, k3))
  {
    XorLowByte(a, Above(b, Above(c, d)), k0, Above(k1, Above(k2, k3)));
    XorLowByte(b, Above(c, d), k1, Above(k2, k3));
    XorLowByte(c, d, k2, k3);
  }

  /** A word-wide load, exclusive-or and store does the work of four octet-wise ones. */
  method XorFour(v: seq<byte>, k: seq<byte>) returns (r: seq<byte>)
    requires |v| == |k| == 4
    ensures r == [XorByte(v[0], k[0]), XorByte(v[1], k[1]), XorByte(v[2], k[2]), XorByte(v[3], k[3])]
  {
    XorParts(v[0], v[1], v[2], v[3], k[0], k[1], k[2], k[3]);
    StoreLoad(XorByte(v[0], k[0]), XorByte(v[1], k[1]), XorByte(v[2], k[2]), XorByte(v[3], k[3]));
    r := StoreWord(Xor(LoadWord(v[0], v[1], v[2], v[3]), LoadWord(k[0], k[1], k[2], k[3])));
  }

  lemma PrefixSlice<T>(s: seq<T>, more: seq<T>, a: nat, b: nat)
    requires a <= b <= |s|
    ensures (s + more)[a..b] == s[a..b]
  {
  }

  lemma MoveOne<T>(s: seq<T>, t: seq<T>)
    requires t != []
    ensures s + [t[0]] + t[1..] == s + t
  {
  }

  /** Copies `data` into an array from index `at` on. */
  method CopyTo(a: array<byte>, at: nat, data: seq<byte>)
    requires at + |data| <= a.Length
    modifies a
    ensures a[..at + |data|] == old(a[..at]) + data
    ensures a[at + |data|..] == old(a[at + |data|..])
  {
    forall i | 0 <= i < |data| {
      a[at + i] := data[i];
    }
  }

  /** Overwrites a whole array. */
  method CopyAll(a: array<byte>, data: seq<byte>)
    requires |data| == a.Length
    modifies a
    ensures a[..] == data
  {
    forall i | 0 <= i < |data| {
      a[i] := data[i];
    }
  }
}
