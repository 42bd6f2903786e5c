/**
  The zlib container of the captcha encoder (crates/catalyrst-credits/src/captcha.rs, `zlib_store` and
  `adler32`), with a decoder after section 2.2 of RFC 1950 and section 3.2.4 of RFC 1951.
 */
module Zlib {
  import opened Bits
  import opened Bytes
  import opened Wrappers

  // ----- Adler-32 -----

  const BASE: nat := 65521

  function Sum(data: seq<byte>): nat {
    if data == [] then 0 else data[0] + Sum(data[1..])
  }

  /** Every byte weighted by the number of bytes from it to the end. */
  function WeightedSum(data: seq<byte>): nat {
    if data == [] then 0 else |data| * data[0] + WeightedSum(data[1..])
  }

  /** Section 8.2 of RFC 1950, without the running sums. */
  function Adler32(data: seq<byte>): u32 {
    (|data| + WeightedSum(data)) % BASE * 0x1_0000 + (1 + Sum(data)) % BASE
  }

  lemma {:induction false} SumsExtend(data: seq<byte>, x: byte)
    ensures Sum(data + [x]) == Sum(data) + x
    ensures WeightedSum(data + [x]) == WeightedSum(data) + Sum(data) + x
  {
    if data != [] {
      assert (data + [x])[1..] == data[1..] + [x];
      SumsExtend(data[1..], x);
      assert |data + [x]| * data[0] == |data| * data[0] + data[0];
    } else {
      assert [x][1..] == [];
    }
  }

  lemma SumsStep(x: nat, y: nat, d: nat)
    ensures (x % BASE + d) % BASE == (x + d) % BASE
    ensures (y % BASE + (x % BASE + d) % BASE) % BASE == (y + x + d) % BASE
  {
    AddMod(x, d);
    AddMod(y, x + d);
    AddMod(y % BASE, x + d);
  }

  lemma AddMod(x: nat, y: nat)
    ensures (x % BASE + y) % BASE == (x + y) % BASE
    ensures (x + y % BASE) % BASE == (x + y) % BASE
  {
    assert x == BASE * (x / BASE) + x % BASE && y == BASE * (y / BASE) + y % BASE;
    ModUnique(x % BASE + y, x / BASE);
    ModUnique(x + y % BASE, y / BASE);
  }

  lemma ModUnique(x: nat, k: nat)
    ensures (x + BASE * k) % BASE == x % BASE
  {
  }

  /** The running sums never leave 32 bits and end as the closed form. */
  method ComputeAdler32(data: seq<byte>) returns (r: u32)
    ensures r == Adler32(data)
  {
    var a: u32, b: u32 := 1, 0;
    for i := 0 to |data|
      invariant a == (1 + Sum(data[..i])) % BASE
      invariant b == (i + WeightedSum(data[..i])) % BASE
    {
      assert data[..i + 1] == data[..i] + [data[i]];
      SumsExtend(data[..i], data[i]);
      SumsStep(1 + Sum(data[..i]), i + WeightedSum(data[..i]), data[i]);
      var sum: u32 := a + data[i];
      a := sum % BASE;
      sum := b + a;
      b := sum % BASE;
    }
    assert data[..|data|] == data;
    r := b * 0x1_0000 + a;
  }

  datatype Sums = Sums(s1: nat, s2: nat)

  /** Section 8.2 of RFC 1950: the sums after the data, reduced at every byte. */
  function RunningSums(data: seq<byte>): Sums {
    if data == [] then Sums(1, 0) else
      var before := RunningSums(data[..|data| - 1]);
      var s1 := (before.s1 + data[|data| - 1]) % 65521;
      Sums(s1, (before.s2 + s1) % 65521)
  }

  lemma {:induction false} RunningSumsClosed(data: seq<byte>)
    ensures RunningSums(data) == Sums((1 + Sum(data)) % BASE, (|data| + WeightedSum(data)) % BASE)
  {
    if data != [] {
      var n := |data| - 1;
      RunningSumsClosed(data[..n]);
      assert data == data[..n] + [data[n]];
      SumsExtend(data[..n], data[n]);
      NextSums(1 + Sum(data[..n]), n + WeightedSum(data[..n]), data[n], RunningSums(data[..n]));
    }
  }

  lemma NextSums(x: nat, y: nat, d: byte, before: Sums)
    requires before == Sums(x % BASE, y % BASE)
    ensures (before.s1 + d) % BASE == (x + d as int) % BASE
    ensures (before.s2 + (before.s1 + d) % BASE) % BASE == (y + x + d as int) % BASE
  {
    SumsStep(x, y, d);
  }

  /** The closed form is the checksum of the standard. */
  lemma AdlerIsStandard(data: seq<byte>)
    ensures Adler32(data) == RunningSums(data).s2 * 65536 + RunningSums(data).s1
  {
    RunningSumsClosed(data);
  }

  /** Changing one byte always changes the checksum. */
  lemma AdlerDetectsOneByte(before: seq<byte>, x: byte, y: byte, after: seq<byte>)
    requires x != y
    ensures Adler32(before + [x] + after) != Adler32(before + [y] + after)
  {
    SumsSplit(before, x, after);
    SumsSplit(before, y, after);
    ModDiffers(1 + Sum(before) + Sum(after), x, y);
    LowHalf(before + [x] + after);
    LowHalf(before + [y] + after);
  }

  lemma LowHalf(data: seq<byte>)
    ensures Adler32(data) % 0x1_0000 == (1 + Sum(data)) % BASE
  {
    LowWord((|data| + WeightedSum(data)) % BASE, (1 + Sum(data)) % BASE);
  }

  lemma LowWord(high: nat, low: nat)
    requires low < 0x1_0000
    ensures (high * 0x1_0000 + low) % 0x1_0000 == low
  {
    assert (high * 0x1_0000 + low) / 0x1_0000 == high;
  }

  lemma ModDiffers(s: nat, x: byte, y: byte)
    requires x != y
    ensures (s + x as int) % BASE != (s + y as int) % BASE
  {
  }

  lemma {:induction false} SumsSplit(before: seq<byte>, x: byte, after: seq<byte>)
    ensures Sum(before + [x] + after) == Sum(before) + x + Sum(after)
  {
    if before == [] {
      assert ([] + [x] + after)[1..] == after;
    } else {
      assert (before + [x] + after)[1..] == before[1..] + [x] + after;
      SumsSplit(before[1..], x, after);
    }
  }

  // ----- the decoder -----

  datatype Block = Block(final: bool, content: seq<byte>)

  datatype Parsed<T> = Parsed(value: T, rest: seq<byte>)

  /** A stored block; compressed blocks are refused. */
  function ReadBlock(s: seq<byte>): (r: Option<Parsed<Block>>)
    ensures r.Some? ==> |r.value.rest| < |s|
  {
    if |s| < 5 then None
    else
      var len: int, nlen: int := ReadLittleEndian16(s[1..3]), ReadLittleEndian16(s[3..5]);
      if s[0] / 2 % 4 != 0 || nlen != 0xffff - len || |s| < 5 + len then None
      else Some(Parsed(Block(s[0] % 2 == 1, s[5..5 + len]), s[5 + len..]))
  }

  /** Blocks up to and including the first final one. */
  function ReadBlocks(s: seq<byte>): Option<Parsed<seq<Block>>>
    decreases |s|
  {
    match ReadBlock(s)
    case None => None
    case Some(one) =>
      if one.value.final then Some(Parsed([one.value], one.rest)) else
        match ReadBlocks(one.rest)
        case None => None
        case Some(more) => Some(Parsed([one.value] + more.value, more.rest))
  }

  function Contents(blocks: seq<Block>): seq<byte> {
    if blocks == [] then [] else blocks[0].content + Contents(blocks[1..])
  }

  /** Method 8 with a window of at most 32K, header check passed, no preset dictionary. */
  predicate HeaderOk(cmf: byte, flg: byte) {
    cmf % 16 == 8 && cmf / 16 <= 7 && (256 * cmf + flg) % 31 == 0 && flg / 32 % 2 == 0
  }

  function Inflate(s: seq<byte>): Option<seq<byte>> {
    if |s| < 2 || !HeaderOk(s[0], s[1]) then None else
      match ReadBlocks(s[2..])
      case None => None
      case Some(p) =>
        var data := Contents(p.value);
        if |p.rest| == 4 && ReadBigEndian32(p.rest) == Adler32(data) then Some(data) else None
  }

  // ----- the encoder -----

  const LIMIT: nat := 0xffff

  function Blocks(data: seq<byte>): seq<Block>
    decreases |data|
  {
    if |data| <= LIMIT then [Block(true, data)]
    else [Block(false, data[..LIMIT])] + Blocks(data[LIMIT..])
  }

  function Emit(b: Block): seq<byte>
    requires |b.content| <= LIMIT
  {
    [if b.final then 1 else 0] + LittleEndian16(|b.content|) + LittleEndian16(0xffff - |b.content|) + b.content
  }

  function Body(data: seq<byte>): seq<byte>
    decreases |data|
  {
    if |data| <= LIMIT then Emit(Block(true, data))
    else Emit(Block(false, data[..LIMIT])) + Body(data[LIMIT..])
  }

  function Stored(data: seq<byte>): seq<byte> {
    [0x78, 0x01] + Body(data) + BigEndian32(Adler32(data))
  }

  /** What is left to write at `pos`. */
  function Todo(data: seq<byte>, pos: nat): seq<byte>
    requires pos <= |data|
  {
    if pos < |data| then Body(data[pos..]) else []
  }

  lemma NextBlock(data: seq<byte>, pos: nat, chunk: nat)
    requires pos < |data| && chunk == (if LIMIT <= |data| - pos then LIMIT else |data| - pos)
    ensures Todo(data, pos) == Emit(Block(pos + chunk >= |data|, data[pos..pos + chunk])) + Todo(data, pos + chunk)
  {
    var todo := data[pos..];
    assert data[pos..pos + chunk] == todo[..chunk];
    if |todo| <= LIMIT {
      assert todo[..chunk] == todo;
    } else {
      assert data[pos + chunk..] == todo[LIMIT..];
    }
  }

  lemma FourPieces(out: seq<byte>, a: seq<byte>, b: seq<byte>, c: seq<byte>, d: seq<byte>, rest: seq<byte>)
    ensures (out + a + b + c + d) + rest == out + ((a + b + c + d) + rest)
  {
  }

  /** One turn of the loop writes the next block. */
  lemma OneTurn(out: seq<byte>, data: seq<byte>, pos: nat, chunk: nat, last: bool, part: seq<byte>)
    requires pos < |data| && chunk == (if LIMIT <= |data| - pos then LIMIT else |data| - pos)
    requires last == (pos + chunk >= |data|) && part == data[pos..pos + chunk]
    ensures (out + [if last then 1 else 0] + LittleEndian16(chunk) + LittleEndian16(0xffff - chunk) + part)
            + Todo(data, pos + chunk) == out + Todo(data, pos)
  {
    NextBlock(data, pos, chunk);
    FourPieces(out, [if last then 1 else 0], LittleEndian16(chunk), LittleEndian16(0xffff - chunk), part,
               Todo(data, pos + chunk));
  }

  lemma EmptyBody(out: seq<byte>)
    ensures out + [1, 0, 0, 0xff, 0xff] == out + Body([])
  {
    assert LittleEndian16(0) == [0, 0] && LittleEndian16(0xffff) == [0xff, 0xff];
    assert Emit(Block(true, [])) == [1, 0, 0, 0xff, 0xff];
  }

  method ZlibStore(data: seq<byte>) returns (out: seq<byte>)
    ensures out == Stored(data)
  {
    out := [0x78, 0x01];
    var pos := 0;
    while pos < |data|
      invariant 0 <= pos <= |data|
      invariant out + Todo(data, pos) == [0x78, 0x01] + Todo(data, 0)
    {
      var chunk := if LIMIT <= |data| - pos then LIMIT else |data| - pos;
      var last := pos + chunk >= |data|;
      OneTurn(out, data, pos, chunk, last, data[pos..pos + chunk]);
      out := out + [if last then 1 else 0];
      out := out + LittleEndian16(chunk);
      out := out + LittleEndian16(0xffff - chunk);
      out := out + data[pos..pos + chunk];
      pos := pos + chunk;
    }
    assert out + [] == out;
    if data == [] {
      assert [0x78, 0x01] + [] == out;
      EmptyBody(out);
      out := out + [1, 0, 0, 0xff, 0xff];
    } else {
      assert data[0..] == data;
    }
    var check := ComputeAdler32(data);
    out := out + BigEndian32(check);
  }

  lemma ReadEmitted(b: Block, rest: seq<byte>)
    requires |b.content| <= LIMIT
    ensures ReadBlock(Emit(b) + rest) == Some(Parsed(b, rest))
  {
    var s, len := Emit(b) + rest, |b.content|;
    assert s[0] == (if b.final then 1 else 0);
    assert s[1..3] == LittleEndian16(len) && s[3..5] == LittleEndian16(0xffff - len);
    assert s[5..5 + len] == b.content && s[5 + len..] == rest;
  }

  lemma {:induction false} BodyReadsBack(data: seq<byte>, rest: seq<byte>)
    ensures ReadBlocks(Body(data) + rest) == Some(Parsed(Blocks(data), rest))
    decreases |data|
  {
    if |data| <= LIMIT {
      ReadEmitted(Block(true, data), rest);
    } else {
      var b, tail := Block(false, data[..LIMIT]), data[LIMIT..];
      assert Body(data) + rest == Emit(b) + (Body(tail) + rest);
      ReadEmitted(b, Body(tail) + rest);
      BodyReadsBack(tail, rest);
    }
  }

  /** Exactly the last block is final, all others are full, none is over the limit, and together they hold the data. */
  lemma {:induction false} BlocksFit(data: seq<byte>)
    ensures var bs := Blocks(data);
      && |bs| >= 1
      && (forall i | 0 <= i < |bs| :: bs[i].final <==> i == |bs| - 1)
      && (forall i | 0 <= i < |bs| - 1 :: |bs[i].content| == 65535)
      && (forall i | 0 <= i < |bs| :: |bs[i].content| <= LIMIT)
      && Contents(bs) == data
    decreases |data|
  {
    if |data| <= LIMIT {
      assert Contents([Block(true, data)]) == data + Contents([]);
    } else {
      BlocksFit(data[LIMIT..]);
      assert Blocks(data)[1..] == Blocks(data[LIMIT..]);
    }
  }

  lemma StoredParts(header: seq<byte>, body: seq<byte>, trailer: seq<byte>)
    requires header == [0x78, 0x01]
    ensures var s := header + body + trailer; |s| >= 2 && HeaderOk(s[0], s[1]) && s[2..] == body + trailer
  {
  }

  /** What `zlib_store` writes is a zlib stream of the data, and nothing follows it. */
  lemma InflateStored(data: seq<byte>)
    ensures Inflate(Stored(data)) == Some(data)
    ensures ReadBlocks(Stored(data)[2..]) == Some(Parsed(Blocks(data), BigEndian32(Adler32(data))))
  {
    var trailer := BigEndian32(Adler32(data));
    StoredParts([0x78, 0x01], Body(data), trailer);
    BodyReadsBack(data, trailer);
    BlocksFit(data);
  }

  lemma StoredSize(data: seq<byte>)
    requires |data| <= LIMIT
    ensures |Stored(data)| == |data| + 11
  {
  }
}
