/**
  Machine words as numbers and as bit sequences, least significant bit first. The wrapping and bitwise
  operators of fixed-width integers are written out arithmetically.
 */
module Bits {

  type byte = x: int | 0 <= x < 256

  type u32 = x: int | 0 <= x < 0x1_0000_0000

  type BitSeq = seq<bool>

  function Xor(a: BitSeq, b: BitSeq): (r: BitSeq)
    requires |a| == |b|
    ensures |r| == |a|
    ensures forall i | 0 <= i < |r| :: r[i] == (a[i] != b[i])
  {
    seq(|a|, i requires 0 <= i < |a| => a[i] != b[i])
  }

  function Zeros(n: nat): (r: BitSeq)
    ensures |r| == n && forall i | 0 <= i < n :: !r[i]
  {
    seq(n, _ => false)
  }

  function Ones(n: nat): (r: BitSeq)
    ensures |r| == n && forall i | 0 <= i < n :: r[i]
  {
    seq(n, _ => true)
  }

  function ToBits(x: nat, n: nat): (r: BitSeq)
    ensures |r| == n
  {
    if n == 0 then [] else [x % 2 == 1] + ToBits(x / 2, n - 1)
  }

  function FromBits(b: BitSeq): nat {
    if b == [] then 0 else (if b[0] then 1 else 0) + 2 * FromBits(b[1..])
  }

  function Pow2(n: nat): (r: nat)
    ensures r >= 1
  {
    if n == 0 then 1 else 2 * Pow2(n - 1)
  }

  /** The `^` operator. */
  function XorWord(a: nat, b: nat): nat {
    if a == 0 && b == 0 then 0 else (a % 2 + b % 2) % 2 + 2 * XorWord(a / 2, b / 2)
  }

  lemma {:induction false} XorWordBits(a: nat, b: nat, n: nat)
    ensures ToBits(XorWord(a, b), n) == Xor(ToBits(a, n), ToBits(b, n))
    decreases n
  {
    if n > 0 {
      XorWordBits(a / 2, b / 2, n - 1);
      var x := XorWord(a, b);
      assert x / 2 == XorWord(a / 2, b / 2) && x % 2 == (a % 2 + b % 2) % 2;
    }
  }

  lemma {:induction false} XorWordBound(a: nat, b: nat, n: nat)
    requires a < Pow2(n) && b < Pow2(n)
    ensures XorWord(a, b) < Pow2(n)
    decreases n
  {
    if n > 0 {
      XorWordBound(a / 2, b / 2, n - 1);
    }
  }

  lemma {:induction false} FromToBits(x: nat, n: nat)
    requires x < Pow2(n)
    ensures FromBits(ToBits(x, n)) == x
    decreases n
  {
    if n > 0 {
      FromToBits(x / 2, n - 1);
    }
  }

  lemma {:induction false} ToFromBits(b: BitSeq, n: nat)
    requires |b| == n
    ensures ToBits(FromBits(b), n) == b
  {
    if n > 0 {
      ToFromBits(b[1..], n - 1);
      assert b == [b[0]] + b[1..];
    }
  }

  lemma {:induction false} FromBitsInjective(a: BitSeq, b: BitSeq)
    requires |a| == |b| && FromBits(a) == FromBits(b)
    ensures a == b
  {
    if a != [] {
      FromBitsInjective(a[1..], b[1..]);
      assert a == [a[0]] + a[1..] && b == [b[0]] + b[1..];
    }
  }

  lemma {:induction false} FromBitsBound(b: BitSeq)
    ensures FromBits(b) < Pow2(|b|)
  {
    if b != [] {
      FromBitsBound(b[1..]);
    }
  }

  lemma ToBitsInjective(x: nat, y: nat, n: nat)
    requires x < Pow2(n) && y < Pow2(n) && ToBits(x, n) == ToBits(y, n)
    ensures x == y
  {
    FromToBits(x, n);
    FromToBits(y, n);
  }

  /** Halving a word shifts its bits down. */
  lemma HalfShifts(x: nat, n: nat)
    requires n > 0 && x < Pow2(n)
    ensures ToBits(x / 2, n) == ToBits(x, n)[1..] + [false]
  {
    TopBitClear(x / 2, n - 1);
  }

  lemma {:induction false} TopBitClear(x: nat, n: nat)
    requires x < Pow2(n)
    ensures ToBits(x, n + 1) == ToBits(x, n) + [false]
  {
    if n > 0 {
      TopBitClear(x / 2, n - 1);
    }
  }

  lemma {:induction false} SplitBits(x: nat, y: nat, m: nat, n: nat)
    requires x < Pow2(m)
    ensures ToBits(x + Pow2(m) * y, m + n) == ToBits(x, m) + ToBits(y, n)
  {
    if m > 0 {
      var z := x + Pow2(m) * y;
      assert Pow2(m) * y == 2 * (Pow2(m - 1) * y);
      assert z / 2 == x / 2 + Pow2(m - 1) * y && z % 2 == x % 2;
      SplitBits(x / 2, y, m - 1, n);
    }
  }

  lemma Pow2Values()
    ensures Pow2(8) == 256 && Pow2(16) == 0x1_0000 && Pow2(24) == 0x100_0000 && Pow2(32) == 0x1_0000_0000
  {
    assert Pow2(4) == 16;
    assert Pow2(12) == 4096;
    assert Pow2(20) == 0x10_0000;
    assert Pow2(28) == 0x1000_0000;
  }
}
