/**
  The CRC-32 of the captcha encoder (crates/catalyrst-credits/src/captcha.rs, `crc32`). `Crc32` is defined by
  polynomial division as in section 3.4 of RFC 2083; the shift-register loop is proved to compute it.
  A bit sequence is a polynomial, highest power first.
 */
module Crc {
  import opened Bits

  /** The powers of x in the CRC polynomial below x^32. */
  predicate Occurs(power: int) {
    power in {26, 23, 22, 16, 12, 11, 10, 8, 7, 5, 4, 2, 1, 0}
  }

  /** The CRC polynomial without x^32: coefficients of x^31 down to 1. */
  function Tail(): (r: BitSeq)
    ensures |r| == 32
  {
    seq(32, i => Occurs(31 - i))
  }

  const POLY: u32 := 0xedb8_8320

  // ----- division -----

  /** The remainder of `p` modulo the CRC polynomial, by long division. */
  function Remainder(p: BitSeq): (r: BitSeq)
    requires |p| >= 32
    ensures |r| == 32
    decreases |p|
  {
    if |p| == 32 then p
    else if p[0] then Remainder(Xor(p[1..33], Tail()) + p[33..])
    else Remainder(p[1..])
  }

  /** `lead` times the CRC polynomial, times x^n. */
  function Lead(lead: bool, n: nat): (r: BitSeq)
    ensures |r| == n + 33
    ensures forall i | 0 <= i < |r| :: r[i] == (lead && (i == 0 || (i <= 32 && Tail()[i - 1])))
  {
    seq(n + 33, i requires 0 <= i < n + 33 => lead && (i == 0 || (i <= 32 && Tail()[i - 1])))
  }

  /** The product of `q` and the CRC polynomial. */
  function Times(q: BitSeq): (r: BitSeq)
    ensures |r| == |q| + 32
  {
    if q == [] then Zeros(32) else Xor(Lead(q[0], |q| - 1), [false] + Times(q[1..]))
  }

  lemma TimesAt(q: BitSeq, i: nat)
    requires q != [] && i < |q| + 32
    ensures Times(q)[i] == ((q[0] && (i == 0 || (i <= 32 && Tail()[i - 1]))) != (i > 0 && Times(q[1..])[i - 1]))
  {
  }

  /** One step of the long division. */
  function Reduce(p: BitSeq): (r: BitSeq)
    requires |p| > 32
    ensures |r| == |p| - 1 && Remainder(p) == Remainder(r)
    ensures forall i | 0 <= i < |r| :: r[i] == (p[i + 1] != (i < 32 && p[0] && Tail()[i]))
  {
    if p[0] then Xor(p[1..33], Tail()) + p[33..] else p[1..]
  }

  /** Coefficient `i` of `Times(q)` plus a remainder. */
  predicate Recombined(q: BitSeq, r: BitSeq, i: nat)
    requires |r| == 32 && i < |q| + 32
  {
    Times(q)[i] != (i >= |q| && r[i - |q|])
  }

  lemma QuotientStep(p: BitSeq, rest: BitSeq, r: BitSeq, i: nat)
    requires |p| == |rest| + 33 && |r| == 32 && i < |p|
    requires i > 0 ==> Reduce(p)[i - 1] == Recombined(rest, r, i - 1)
    ensures p[i] == Recombined([p[0]] + rest, r, i)
  {
    var q := [p[0]] + rest;
    assert q[1..] == rest;
    TimesAt(q, i);
  }

  /** `Remainder` is a remainder: the rest of `p` is a multiple of the CRC polynomial. */
  lemma {:induction false} DivisionTheorem(p: BitSeq) returns (q: BitSeq)
    requires |p| >= 32
    ensures |q| == |p| - 32
    ensures forall i | 0 <= i < |p| :: p[i] == Recombined(q, Remainder(p), i)
    decreases |p|
  {
    q := [];
    if |p| > 32 {
      var rest := DivisionTheorem(Reduce(p));
      q := [p[0]] + rest;
      forall i | 0 <= i < |p| ensures p[i] == Recombined(q, Remainder(p), i) {
        QuotientStep(p, rest, Remainder(p), i);
      }
    }
  }

  lemma RecombinedFirst(q: BitSeq, r: BitSeq)
    requires q != [] && |r| == 32
    ensures Recombined(q, r, 0) == q[0]
  {
    TimesAt(q, 0);
  }

  lemma RecombinedNext(q: BitSeq, r: BitSeq, i: nat)
    requires q != [] && |r| == 32 && i < |q| + 31
    ensures Recombined(q, r, i + 1) == ((q[0] && i < 32 && Tail()[i]) != Recombined(q[1..], r, i))
  {
    var rest, here := Times(q[1..])[i], i + 1 >= |q| && r[i + 1 - |q|];
    TimesAt(q, i + 1);
    assert Recombined(q, r, i + 1) == (Times(q)[i + 1] != here);
    assert Recombined(q[1..], r, i) == (rest != here);
  }

  lemma RecombinedStep(q: BitSeq, r: BitSeq, p: BitSeq, i: nat)
    requires q != [] && |r| == 32 && |p| == |q| + 32 && i < |p| - 1
    requires p[0] == Recombined(q, r, 0) && p[i + 1] == Recombined(q, r, i + 1)
    ensures Reduce(p)[i] == Recombined(q[1..], r, i)
  {
    RecombinedFirst(q, r);
    RecombinedNext(q, r, i);
  }

  /** And it is the only one: whatever has `p` as a multiple of the polynomial plus 32 coefficients has these. */
  lemma {:induction false} RemainderUnique(q: BitSeq, r: BitSeq, p: BitSeq)
    requires |r| == 32 && |p| == |q| + 32
    requires forall i | 0 <= i < |p| :: p[i] == Recombined(q, r, i)
    ensures Remainder(p) == r
    decreases |q|
  {
    if q == [] {
      forall i | 0 <= i < 32 ensures p[i] == r[i] {
        assert p[i] == Recombined(q, r, i);
      }
    } else {
      forall i | 0 <= i < |p| - 1 ensures Reduce(p)[i] == Recombined(q[1..], r, i) {
        assert p[i + 1] == Recombined(q, r, i + 1);
        RecombinedStep(q, r, p, i);
      }
      RemainderUnique(q[1..], r, Reduce(p));
    }
  }

  // ----- the shift register -----

  function Shift(reg: BitSeq): (r: BitSeq)
    requires |reg| == 32
    ensures |r| == 32
  {
    reg[1..] + [false]
  }

  /** The register after one message bit. */
  function Clock(reg: BitSeq, bit: bool): (r: BitSeq)
    requires |reg| == 32
    ensures |r| == 32
  {
    if reg[0] != bit then Xor(Shift(reg), Tail()) else Shift(reg)
  }

  function Feed(reg: BitSeq, m: BitSeq): (r: BitSeq)
    requires |reg| == 32
    ensures |r| == 32
    decreases |m|
  {
    if m == [] then reg else Feed(Clock(reg, m[0]), m[1..])
  }

  lemma {:induction false} FeedAppend(reg: BitSeq, m: BitSeq, n: BitSeq)
    requires |reg| == 32
    ensures Feed(reg, m + n) == Feed(Feed(reg, m), n)
    decreases |m|
  {
    if m == [] {
      assert m + n == n;
    } else {
      assert (m + n)[1..] == m[1..] + n;
      FeedAppend(Clock(reg, m[0]), m[1..], n);
    }
  }

  /** The message left to divide, followed by 32 zero bits, with the register added to its front. */
  function Pending(reg: BitSeq, m: BitSeq): (p: BitSeq)
    requires |reg| == 32
    ensures |p| == |m| + 32
    ensures forall i | 0 <= i < |p| :: p[i] == ((i < |m| && m[i]) != (i < 32 && reg[i]))
  {
    Xor(m + Zeros(32), reg + Zeros(|m|))
  }

  lemma ClockReduces(reg: BitSeq, m: BitSeq)
    requires |reg| == 32 && m != []
    ensures var p := Pending(reg, m);
      Pending(Clock(reg, m[0]), m[1..]) == if p[0] then Xor(p[1..33], Tail()) + p[33..] else p[1..]
  {
    var p, next := Pending(reg, m), Clock(reg, m[0]);
    var p' := Pending(next, m[1..]);
    var r := if p[0] then Xor(p[1..33], Tail()) + p[33..] else p[1..];
    forall i | 0 <= i < |p'| ensures p'[i] == r[i] {
      assert i < 32 ==> next[i] == ((i < 31 && reg[i + 1]) != (p[0] && Tail()[i]));
      assert r[i] == (p[i + 1] != (i < 32 && p[0] && Tail()[i]));
    }
  }

  /** Feeding a message is dividing what is pending. */
  lemma {:induction false} FeedDivides(reg: BitSeq, m: BitSeq)
    requires |reg| == 32
    ensures Feed(reg, m) == Remainder(Pending(reg, m))
    decreases |m|
  {
    if m == [] {
      assert Pending(reg, m) == reg;
    } else {
      FeedDivides(Clock(reg, m[0]), m[1..]);
      ClockReduces(reg, m);
    }
  }

  // ----- bytes -----

  /** The bits of a message, each byte from its least significant bit. */
  function MessageBits(data: seq<byte>): (r: BitSeq)
    ensures |r| == 8 * |data|
  {
    if data == [] then [] else MessageBits(data[..|data| - 1]) + ToBits(data[|data| - 1], 8)
  }

  /** The message with its first 32 bits inverted, times x^32. */
  function Dividend(data: seq<byte>): (p: BitSeq)
    ensures |p| == 8 * |data| + 32
  {
    Xor(MessageBits(data) + Zeros(32), Ones(32) + Zeros(8 * |data|))
  }

  function Crc32(data: seq<byte>): (r: u32) {
    FromBitsBound(Remainder(Dividend(data)));
    Pow2Values();
    0xffff_ffff - FromBits(Remainder(Dividend(data)))
  }

  // ----- the loop -----

  function Coefficient(b: bool): nat {
    if b then 1 else 0
  }

  lemma FourCoefficients(s: BitSeq, k: nat)
    requires k + 4 <= |s|
    ensures FromBits(s[k..]) == Coefficient(s[k]) + 2 * Coefficient(s[k + 1]) + 4 * Coefficient(s[k + 2])
                              + 8 * Coefficient(s[k + 3]) + 16 * FromBits(s[k + 4..])
  {
    OneCoefficient(s, k);
    OneCoefficient(s, k + 1);
    OneCoefficient(s, k + 2);
    OneCoefficient(s, k + 3);
  }

  lemma OneCoefficient(s: BitSeq, k: nat)
    requires k < |s|
    ensures FromBits(s[k..]) == Coefficient(s[k]) + 2 * FromBits(s[k + 1..])
  {
    assert s[k..][1..] == s[k + 1..];
  }

  lemma UpperHalf(s: BitSeq)
    requires |s| == 32 && forall k | 0 <= k < 32 :: s[k] == Occurs(31 - k)
    ensures FromBits(s[16..]) == 0xedb8
  {
    FourCoefficients(s, 16);
    FourCoefficients(s, 20);
    FourCoefficients(s, 24);
    FourCoefficients(s, 28);
  }

  lemma WholeTail(s: BitSeq)
    requires |s| == 32 && forall k | 0 <= k < 32 :: s[k] == Occurs(31 - k)
    ensures FromBits(s[0..]) == POLY
  {
    FourCoefficients(s, 0);
    FourCoefficients(s, 4);
    FourCoefficients(s, 8);
    FourCoefficients(s, 12);
    UpperHalf(s);
  }

  /** The loop's constant is the CRC polynomial with its bits reversed. */
  lemma TailBits(poly: nat)
    requires poly == POLY
    ensures ToBits(poly, 32) == Tail()
  {
    WholeTail(Tail());
    ToFromBits(Tail()[0..], 32);
    assert Tail()[0..] == Tail();
  }

  /** Clocking in a bit is adding it to the register and clocking in a zero; the bits behind it move up. */
  lemma ClockFolds(reg: BitSeq, m: BitSeq)
    requires |reg| == 32 && 0 < |m| <= 32
    ensures Clock(Xor(reg, m + Zeros(32 - |m|)), false) == Xor(Clock(reg, m[0]), m[1..] + Zeros(33 - |m|))
  {
    var u, v := m + Zeros(32 - |m|), m[1..] + Zeros(33 - |m|);
    forall i | 0 <= i < 32 ensures Clock(Xor(reg, u), false)[i] == Xor(Clock(reg, m[0]), v)[i] {
      assert i < 31 ==> u[i + 1] == v[i];
      assert i == 31 ==> !v[i];
    }
  }

  lemma FeedZero(reg: BitSeq, n: nat)
    requires |reg| == 32 && n > 0
    ensures Feed(reg, Zeros(n)) == Feed(Clock(reg, false), Zeros(n - 1))
  {
    assert Zeros(n)[1..] == Zeros(n - 1) && !Zeros(n)[0];
  }

  /** Feeding up to 32 bits is adding them to the register and clocking in as many zeros. */
  lemma {:induction false} FeedFolds(reg: BitSeq, m: BitSeq)
    requires |reg| == 32 && |m| <= 32
    ensures Feed(reg, m) == Feed(Xor(reg, m + Zeros(32 - |m|)), Zeros(|m|))
    decreases |m|
  {
    if m == [] {
      assert Xor(reg, m + Zeros(32)) == reg;
    } else {
      FeedFolds(Clock(reg, m[0]), m[1..]);
      ClockFolds(reg, m);
      FeedZero(Xor(reg, m + Zeros(32 - |m|)), |m|);
    }
  }

  /** One turn of the inner loop is one zero bit. */
  method StepRegister(crc: u32) returns (r: u32)
    ensures ToBits(r, 32) == Clock(ToBits(crc, 32), false)
  {
    Pow2Values();
    HalfShifts(crc, 32);
    if crc % 2 != 0 {
      XorWordBits(crc / 2, POLY, 32);
      XorWordBound(crc / 2, POLY, 32);
      TailBits(POLY);
      r := XorWord(crc / 2, POLY);
    } else {
      r := crc / 2;
    }
  }

  method AbsorbByte(crc: u32, data: byte) returns (r: u32)
    ensures ToBits(r, 32) == Feed(ToBits(crc, 32), ToBits(data, 8))
  {
    Pow2Values();
    XorWordBits(crc, data, 32);
    XorWordBound(crc, data, 32);
    r := XorWord(crc, data);
    SplitBits(data, 0, 8, 24);
    ZeroBits(24);
    FeedFolds(ToBits(crc, 32), ToBits(data, 8));
    ghost var start := ToBits(r, 32);
    for k := 0 to 8
      invariant Feed(ToBits(r, 32), Zeros(8 - k)) == Feed(start, Zeros(8))
    {
      FeedZero(ToBits(r, 32), 8 - k);
      r := StepRegister(r);
    }
  }

  lemma {:induction false} ZeroBits(n: nat)
    ensures ToBits(0, n) == Zeros(n)
  {
    if n > 0 {
      ZeroBits(n - 1);
    }
  }

  lemma {:induction false} OneBits(n: nat)
    ensures ToBits(Pow2(n) - 1, n) == Ones(n)
  {
    if n > 0 {
      OneBits(n - 1);
      assert (Pow2(n) - 1) / 2 == Pow2(n - 1) - 1;
    }
  }

  /** The shift-register loop computes the division. */
  method ComputeCrc32(data: seq<byte>) returns (r: u32)
    ensures r == Crc32(data)
  {
    var crc: u32 := 0xffff_ffff;
    Pow2Values();
    OneBits(32);
    for i := 0 to |data|
      invariant ToBits(crc, 32) == Feed(Ones(32), MessageBits(data[..i]))
    {
      assert data[..i + 1][..i] == data[..i] && data[..i + 1][i] == data[i];
      FeedAppend(Ones(32), MessageBits(data[..i]), ToBits(data[i], 8));
      crc := AbsorbByte(crc, data[i]);
    }
    assert data[..|data|] == data;
    FeedDivides(Ones(32), MessageBits(data));
    FromToBits(crc, 32);
    r := 0xffff_ffff - crc;
  }

  // ----- short bursts are detected -----

  lemma ClockInjective(r: BitSeq, s: BitSeq, bit: bool)
    requires |r| == 32 && |s| == 32 && Clock(r, bit) == Clock(s, bit)
    ensures r == s
  {
    assert Clock(r, bit)[31] == (r[0] != bit);
    assert Clock(s, bit)[31] == (s[0] != bit);
    forall i | 1 <= i < 32 ensures r[i] == s[i] {
      assert Clock(r, bit)[i - 1] == (r[i] != (r[0] != bit && Tail()[i - 1]));
      assert Clock(s, bit)[i - 1] == (s[i] != (s[0] != bit && Tail()[i - 1]));
    }
  }

  /** Feeding the same bits is a bijection on registers. */
  lemma {:induction false} FeedInjective(r: BitSeq, s: BitSeq, m: BitSeq)
    requires |r| == 32 && |s| == 32 && Feed(r, m) == Feed(s, m)
    ensures r == s
    decreases |m|
  {
    if m != [] {
      FeedInjective(Clock(r, m[0]), Clock(s, m[0]), m[1..]);
      ClockInjective(r, s, m[0]);
    }
  }

  lemma XorCancels(r: BitSeq, a: BitSeq, b: BitSeq)
    requires |r| == |a| == |b| && Xor(r, a) == Xor(r, b)
    ensures a == b
  {
    assert forall i | 0 <= i < |a| :: a[i] == (Xor(r, a)[i] != r[i]) && b[i] == (Xor(r, b)[i] != r[i]);
  }

  /** Different short messages lead apart from any register. */
  lemma ShortMessagesDiffer(r: BitSeq, x: BitSeq, y: BitSeq)
    requires |r| == 32 && |x| == |y| <= 32 && Feed(r, x) == Feed(r, y)
    ensures x == y
  {
    var u, v := x + Zeros(32 - |x|), y + Zeros(32 - |x|);
    FeedFolds(r, x);
    FeedFolds(r, y);
    FeedInjective(Xor(r, u), Xor(r, v), Zeros(|x|));
    XorCancels(r, u, v);
    assert x == u[..|x|] && y == v[..|x|];
  }

  /** Two messages that differ only inside 32 consecutive bits leave different registers. */
  lemma BurstChangesRegister(before: BitSeq, x: BitSeq, y: BitSeq, after: BitSeq)
    requires |x| == |y| <= 32 && x != y
    ensures Feed(Ones(32), before + x + after) != Feed(Ones(32), before + y + after)
  {
    var r := Feed(Ones(32), before);
    FeedAppend(Ones(32), before, x);
    FeedAppend(Ones(32), before, y);
    FeedAppend(Ones(32), before + x, after);
    FeedAppend(Ones(32), before + y, after);
    if Feed(Feed(r, x), after) == Feed(Feed(r, y), after) {
      FeedInjective(Feed(r, x), Feed(r, y), after);
      ShortMessagesDiffer(r, x, y);
    }
  }

  lemma {:induction false} MessageBitsAppend(a: seq<byte>, b: seq<byte>)
    ensures MessageBits(a + b) == MessageBits(a) + MessageBits(b)
  {
    if b == [] {
      assert a + b == a;
    } else {
      var init, last := b[..|b| - 1], b[|b| - 1];
      assert (a + b)[..|a + b| - 1] == a + init && (a + b)[|a + b| - 1] == last;
      MessageBitsAppend(a, init);
    }
  }

  lemma LastByteBits(a: seq<byte>)
    requires a != []
    ensures var n := |a| - 1;
      MessageBits(a)[..8 * n] == MessageBits(a[..n]) && MessageBits(a)[8 * n..] == ToBits(a[n], 8)
  {
  }

  lemma {:induction false} MessageBitsInjective(a: seq<byte>, b: seq<byte>)
    requires |a| == |b| && MessageBits(a) == MessageBits(b)
    ensures a == b
  {
    if a != [] {
      var n := |a| - 1;
      LastByteBits(a);
      LastByteBits(b);
      MessageBitsInjective(a[..n], b[..n]);
      Pow2Values();
      ToBitsInjective(a[n], b[n], 8);
      assert a == a[..n] + [a[n]] && b == b[..n] + [b[n]];
    }
  }

  /** Two byte strings that differ only inside four consecutive bytes have different checksums. */
  lemma BurstChangesCrc(before: seq<byte>, x: seq<byte>, y: seq<byte>, after: seq<byte>)
    requires |x| == |y| <= 4 && x != y
    ensures Crc32(before + x + after) != Crc32(before + y + after)
  {
    var a, b := before + x + after, before + y + after;
    MessageBitsAppend(before, x);
    MessageBitsAppend(before, y);
    MessageBitsAppend(before + x, after);
    MessageBitsAppend(before + y, after);
    if MessageBits(x) == MessageBits(y) { MessageBitsInjective(x, y); }
    BurstChangesRegister(MessageBits(before), MessageBits(x), MessageBits(y), MessageBits(after));
    FeedDivides(Ones(32), MessageBits(a));
    FeedDivides(Ones(32), MessageBits(b));
    if Crc32(a) == Crc32(b) {
      FromBitsInjective(Remainder(Dividend(a)), Remainder(Dividend(b)));
    }
  }
}
