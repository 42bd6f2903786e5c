/**
  The residue of the CRC-32: whatever the data, a reader that runs the register over it and over its checksum, least
  significant byte first, ends in one fixed register (crates/catalyrst-credits/src/captcha.rs:128-141).
 */
module Residue {
  import opened Bits
  import opened Crc

  /** The four bytes of a checksum, least significant first. */
  function CheckBytes(c: u32): (r: seq<byte>)
    ensures |r| == 4
    ensures r[0] as int + 0x100 * r[1] as int + 0x1_0000 * r[2] as int + 0x100_0000 * r[3] as int == c
  {
    var low, high := c % 0x1_0000, c / 0x1_0000;
    [low % 0x100, low / 0x100, high % 0x100, high / 0x100]
  }

  lemma CheckBits(c: u32, check: seq<byte>)
    requires check == CheckBytes(c)
    ensures MessageBits(check) == ToBits(c, 32)
  {
    var y2 := SplitByte(check[2], check[3], 8);
    var y1 := SplitByte(check[1], y2, 16);
    var y0 := SplitByte(check[0], y1, 24);
    FourBytes(check);
  }

  /** A byte below `y`. */
  lemma SplitByte(b: byte, y: nat, n: nat) returns (r: nat)
    ensures r == b + 0x100 * y && ToBits(r, 8 + n) == ToBits(b, 8) + ToBits(y, n)
  {
    Pow2Values();
    SplitBits(b, y, 8, n);
    r := b + Pow2(8) * y;
  }

  lemma FourBytes(s: seq<byte>)
    requires |s| == 4
    ensures MessageBits(s) == ToBits(s[0], 8) + (ToBits(s[1], 8) + (ToBits(s[2], 8) + ToBits(s[3], 8)))
  {
    MessageBitsAppend(s[..1], s[1..]);
    MessageBitsAppend(s[1..2], s[2..]);
    MessageBitsAppend(s[2..3], s[3..]);
    forall k | 0 <= k < 4 ensures MessageBits(s[k..k + 1]) == ToBits(s[k], 8) {
      OneByte(s[k..k + 1]);
    }
    assert s == s[..1] + s[1..] && s[1..] == s[1..2] + s[2..] && s[2..] == s[2..3] + s[3..];
  }

  lemma OneByte(s: seq<byte>)
    requires |s| == 1
    ensures MessageBits(s) == ToBits(s[0], 8)
  {
  }

  lemma {:induction false} ComplementBits(b: BitSeq)
    ensures FromBits(b) < Pow2(|b|) && ToBits(Pow2(|b|) - 1 - FromBits(b), |b|) == Xor(b, Ones(|b|))
  {
    if b != [] {
      ComplementBits(b[1..]);
      var rest := Pow2(|b| - 1) - 1 - FromBits(b[1..]);
      var x := Pow2(|b|) - 1 - FromBits(b);
      assert x == (if b[0] then 0 else 1) + 2 * rest;
      assert x / 2 == rest && (x % 2 == 1 <==> !b[0]);
    }
  }

  lemma ChecksumIsComplement(data: seq<byte>)
    ensures ToBits(Crc32(data), 32) == Xor(Feed(Ones(32), MessageBits(data)), Ones(32))
  {
    FeedDivides(Ones(32), MessageBits(data));
    ComplementBits(Feed(Ones(32), MessageBits(data)));
    Pow2Values();
  }

  /** The register after the data and its checksum is the same for all data. */
  lemma ResidueIsFixed(data: seq<byte>)
    ensures Feed(Ones(32), MessageBits(data + CheckBytes(Crc32(data)))) == Feed(Ones(32), Zeros(32))
  {
    var check := CheckBytes(Crc32(data));
    var reg, bits := Feed(Ones(32), MessageBits(data)), MessageBits(check);
    MessageBitsAppend(data, check);
    FeedAppend(Ones(32), MessageBits(data), bits);
    CheckBits(Crc32(data), check);
    ChecksumIsComplement(data);
    FeedFolds(reg, bits);
    assert Xor(reg, bits + Zeros(0)) == Ones(32);
  }

  // ----- its value -----

  function Bit(q: BitSeq, j: int): nat {
    if 0 <= j < |q| && q[j] then 1 else 0
  }

  /** How many products of a coefficient of `q` and one of the CRC polynomial meet at place `i`. */
  function Meeting(q: BitSeq, i: int): nat {
    Bit(q, i) + Bit(q, i - 6) + Bit(q, i - 9) + Bit(q, i - 10) + Bit(q, i - 16) + Bit(q, i - 20) + Bit(q, i - 21)
    + Bit(q, i - 22) + Bit(q, i - 24) + Bit(q, i - 25) + Bit(q, i - 27) + Bit(q, i - 28) + Bit(q, i - 30)
    + Bit(q, i - 31) + Bit(q, i - 32)
  }

  /** The first coefficient of `q` meets one of the CRC polynomial at place `i`. */
  predicate FirstMeets(q: BitSeq, i: int)
    requires q != []
  {
    q[0] && (i == 0 || (0 < i <= 32 && Tail()[i - 1]))
  }

  lemma MeetingNext(q: BitSeq, i: int)
    requires q != []
    ensures Meeting(q, i) == Meeting(q[1..], i - 1) + if FirstMeets(q, i) then 1 else 0
  {
    forall j | j != 0 ensures Bit(q, j) == Bit(q[1..], j - 1) {}
  }

  predicate MeetsOdd(q: BitSeq, i: int) {
    Meeting(q, i) % 2 == 1
  }

  lemma MeetsOddNext(q: BitSeq, i: nat)
    requires q != []
    ensures MeetsOdd(q, i) <==> FirstMeets(q, i) != (i > 0 && MeetsOdd(q[1..], i - 1))
  {
    MeetingNext(q, i);
    OneMoreIsOdd(Meeting(q[1..], i - 1), FirstMeets(q, i));
    if i == 0 {
      NothingMeetsBefore(q[1..], -1);
    }
  }

  lemma OneMoreIsOdd(n: nat, more: bool)
    ensures (n + if more then 1 else 0) % 2 == 1 <==> more != (n % 2 == 1)
  {
  }

  lemma NothingMeetsBefore(q: BitSeq, i: int)
    requires i < 0
    ensures Meeting(q, i) == 0
  {
  }

  /** A product with the CRC polynomial, coefficient by coefficient. */
  lemma {:induction false} TimesMeets(q: BitSeq, i: nat)
    requires i < |q| + 32
    ensures Times(q)[i] == MeetsOdd(q, i)
  {
    if q != [] {
      if i > 0 {
        TimesMeets(q[1..], i - 1);
      }
      TimesMeetsNext(q, i);
    } else {
      NothingMeets(q, i);
    }
  }

  lemma TimesMeetsNext(q: BitSeq, i: nat)
    requires q != [] && i < |q| + 32
    requires i > 0 ==> Times(q[1..])[i - 1] == MeetsOdd(q[1..], i - 1)
    ensures Times(q)[i] == MeetsOdd(q, i)
  {
    TimesFirst(q, i);
    MeetsOddNext(q, i);
  }

  lemma TimesFirst(q: BitSeq, i: nat)
    requires q != [] && i < |q| + 32
    ensures Times(q)[i] == (FirstMeets(q, i) != (i > 0 && Times(q[1..])[i - 1]))
  {
    TimesAt(q, i);
  }

  lemma NothingMeets(q: BitSeq, i: int)
    requires q == []
    ensures !MeetsOdd(q, i)
  {
  }

  /** The quotient of x^63 + ... + x^32 by the CRC polynomial, and what is left. */
  predicate InQuotient(j: int) {
    j in {0, 1, 2, 3, 4, 5, 9, 12, 13, 14, 15, 24, 26, 27, 29, 31}
  }

  predicate InRest(j: int) {
    j in {0, 1, 5, 6, 7, 13, 16, 17, 19, 20, 21, 23, 25, 26, 27, 28, 30, 31}
  }

  ghost predicate Fits(q: BitSeq, i: int) {
    MeetsOdd(q, i) == (i < 32 || InRest(i - 32))
  }

  lemma QuotientFits(q: BitSeq)
    requires |q| == 32 && forall j | 0 <= j < 32 :: q[j] == InQuotient(j)
    ensures forall i | 0 <= i < 64 :: Fits(q, i)
  {
  }

  lemma RestIsRemainder(q: BitSeq, r: BitSeq)
    requires |q| == 32 && forall j | 0 <= j < 32 :: q[j] == InQuotient(j)
    requires |r| == 32 && forall j | 0 <= j < 32 :: r[j] == InRest(j)
    ensures Feed(Ones(32), Zeros(32)) == r
  {
    var p := Pending(Ones(32), Zeros(32));
    QuotientFits(q);
    forall i | 0 <= i < 64 ensures p[i] == Recombined(q, r, i) {
      assert Fits(q, i);
      TimesMeets(q, i);
    }
    FeedDivides(Ones(32), Zeros(32));
    RemainderUnique(q, r, p);
  }

  lemma RestUpperHalf(r: BitSeq)
    requires |r| == 32 && forall j | 0 <= j < 32 :: r[j] == InRest(j)
    ensures FromBits(r[16..]) == 0xdebb
  {
    FourCoefficients(r, 16);
    FourCoefficients(r, 20);
    FourCoefficients(r, 24);
    FourCoefficients(r, 28);
  }

  lemma RestValue(r: BitSeq)
    requires |r| == 32 && forall j | 0 <= j < 32 :: r[j] == InRest(j)
    ensures FromBits(r[0..]) == 0xdebb_20e3
  {
    RestUpperHalf(r);
    FourCoefficients(r, 0);
    FourCoefficients(r, 4);
    FourCoefficients(r, 8);
    FourCoefficients(r, 12);
  }

  /** The value that every reader of the format expects there. */
  lemma ResidueValue(residue: nat)
    requires residue == 0xdebb_20e3
    ensures Feed(Ones(32), Zeros(32)) == ToBits(residue, 32)
  {
    var q, r := seq(32, j => InQuotient(j)), seq(32, j => InRest(j));
    RestIsRemainder(q, r);
    RestValue(r);
    assert r[0..] == r;
    ToFromBits(r, 32);
  }
}
