/**
  The captcha picture (crates/catalyrst-credits/src/captcha.rs, `render_png`, `write_chunk` and `lcg`), with a
  reader after sections 3.1, 3.2, 4.1.1 and 6.2 of RFC 2083.
 */
module Png {
  import opened Bits
  import opened Bytes
  import opened Wrappers
  import Crc
  import Zlib

  // ----- chunks -----

  datatype Chunk = Chunk(kind: seq<byte>, data: seq<byte>)

  predicate WellFormed(c: Chunk) {
    |c.kind| == 4 && |c.data| < 0x8000_0000
  }

  /** A length over 32 bits is truncated, as the cast does. */
  function Emit(c: Chunk): seq<byte> {
    BigEndian32(|c.data| % 0x1_0000_0000) + c.kind + c.data + BigEndian32(Crc.Crc32(c.kind + c.data))
  }

  function EmitAll(chunks: seq<Chunk>): seq<byte> {
    if chunks == [] then [] else Emit(chunks[0]) + EmitAll(chunks[1..])
  }

  function ReadChunk(s: seq<byte>): (r: Option<(Chunk, seq<byte>)>)
    ensures r.Some? ==> |r.value.1| < |s| && WellFormed(r.value.0)
  {
    if |s| < 12 then None
    else
      var len: int := ReadBigEndian32(s[..4]);
      if len >= 0x8000_0000 || |s| < 12 + len then None
      else
        var c := Chunk(s[4..8], s[8..8 + len]);
        if ReadBigEndian32(s[8 + len..12 + len]) != Crc.Crc32(c.kind + c.data) then None
        else Some((c, s[12 + len..]))
  }

  function ReadChunks(s: seq<byte>): Option<seq<Chunk>>
    decreases |s|
  {
    if s == [] then Some([]) else
      match ReadChunk(s)
      case None => None
      case Some(one) =>
        match ReadChunks(one.1)
        case None => None
        case Some(more) => Some([one.0] + more)
  }

  lemma FiveParts(a: seq<byte>, b: seq<byte>, c: seq<byte>, d: seq<byte>, rest: seq<byte>)
    requires |a| == 4 && |b| == 4 && |d| == 4
    ensures var s, n := (a + b + c + d) + rest, |c|;
      && |s| == 12 + n + |rest| && s[..4] == a && s[4..8] == b && s[8..8 + n] == c
      && s[8 + n..12 + n] == d && s[12 + n..] == rest
  {
  }

  lemma ReadParts(s: seq<byte>, c: Chunk, check: seq<byte>, rest: seq<byte>)
    requires WellFormed(c) && |check| == 4 && ReadBigEndian32(check) == Crc.Crc32(c.kind + c.data)
    requires |s| == 12 + |c.data| + |rest| && s[..4] == BigEndian32(|c.data|) && s[4..8] == c.kind
    requires s[8..8 + |c.data|] == c.data && s[8 + |c.data|..12 + |c.data|] == check && s[12 + |c.data|..] == rest
    ensures ReadChunk(s) == Some((c, rest))
  {
  }

  lemma EmitShape(c: Chunk, length: seq<byte>, check: seq<byte>)
    requires WellFormed(c) && length == BigEndian32(|c.data|) && check == BigEndian32(Crc.Crc32(c.kind + c.data))
    ensures Emit(c) == length + c.kind + c.data + check
  {
    assert |c.data| % 0x1_0000_0000 == |c.data|;
  }

  lemma ReadEmitted(c: Chunk, rest: seq<byte>)
    requires WellFormed(c)
    ensures ReadChunk(Emit(c) + rest) == Some((c, rest))
  {
    var length, check := BigEndian32(|c.data|), BigEndian32(Crc.Crc32(c.kind + c.data));
    EmitShape(c, length, check);
    ReadPieces(c, length, check, rest);
  }

  lemma ReadPieces(c: Chunk, length: seq<byte>, check: seq<byte>, rest: seq<byte>)
    requires WellFormed(c) && length == BigEndian32(|c.data|)
    requires |check| == 4 && ReadBigEndian32(check) == Crc.Crc32(c.kind + c.data)
    ensures ReadChunk((length + c.kind + c.data + check) + rest) == Some((c, rest))
  {
    FiveParts(length, c.kind, c.data, check, rest);
    ReadParts((length + c.kind + c.data + check) + rest, c, check, rest);
  }

  /** The reader recovers any list of chunks. */
  lemma {:induction false} ReadAllEmitted(chunks: seq<Chunk>)
    requires forall i | 0 <= i < |chunks| :: WellFormed(chunks[i])
    ensures ReadChunks(EmitAll(chunks)) == Some(chunks)
  {
    if chunks != [] {
      ReadAllEmitted(chunks[1..]);
      ReadFirst(chunks[0], EmitAll(chunks[1..]), chunks[1..]);
      assert chunks == [chunks[0]] + chunks[1..];
    }
  }

  lemma ReadFirst(c: Chunk, rest: seq<byte>, more: seq<Chunk>)
    requires WellFormed(c) && ReadChunks(rest) == Some(more)
    ensures ReadChunks(Emit(c) + rest) == Some([c] + more)
  {
    ReadEmitted(c, rest);
  }

  method WriteChunk(out: seq<byte>, kind: seq<byte>, data: seq<byte>) returns (r: seq<byte>)
    ensures r == out + Emit(Chunk(kind, data))
  {
    var length := BigEndian32(|data| % 0x1_0000_0000);
    r := out + length;
    r := r + kind;
    r := r + data;
    var crc := Crc.ComputeCrc32(kind + data);
    Regroup(out, length, kind, data, BigEndian32(crc));
    r := r + BigEndian32(crc);
  }

  lemma Regroup(a: seq<byte>, b: seq<byte>, c: seq<byte>, d: seq<byte>, e: seq<byte>)
    ensures a + b + c + d + e == a + (b + c + d + e)
  {
  }

  // ----- the picture -----

  datatype Pixel = Pixel(r: byte, g: byte, b: byte)

  datatype Image = Image(width: nat, height: nat, rows: seq<seq<Pixel>>)

  const WIDTH: nat := 160
  const HEIGHT: nat := 60

  /** The percentage, within its range. */
  function Clamp(answer: real): real {
    if answer < 0.0 then 0.0 else if answer > 100.0 then 100.0 else answer
  }

  /** The column of the marker: the percentage of the last column, rounded half up. */
  function MarkerPixel(answer: real): nat {
    var px := (Clamp(answer) / 100.0 * 159.0 + 0.5).Floor;
    if px <= WIDTH - 1 then px else WIDTH - 1
  }

  function PixelToPercent(px: nat): real {
    (if px <= WIDTH - 1 then px else WIDTH - 1) as real / 159.0 * 100.0
  }

  /** The generator's seed: the cast to 64 bits drops the fraction and saturates. */
  function SeedOf(answer: real): u64 {
    var whole := if answer < 0.0 then 0 else if answer.Floor <= U64_MAX then answer.Floor else U64_MAX;
    (whole * 0x9E37_79B9_7F4A_7C15 + 0x1234_5678_9ABC_DEF0) % 0x1_0000_0000_0000_0000
  }

  const U64_MAX: nat := 0xFFFF_FFFF_FFFF_FFFF

  type u64 = x: int | 0 <= x < 0x1_0000_0000_0000_0000

  function NextState(state: u64): u64 {
    (state * 6364136223846793005 + 1442695040888963407) % 0x1_0000_0000_0000_0000
  }

  /** The generator's state after `k` draws. */
  function Drawn(seed: u64, k: nat): u64 {
    if k == 0 then seed else NextState(Drawn(seed, k - 1))
  }

  method Lcg(state: u64) returns (next: u64, n: u32)
    ensures next == NextState(state) && n == next / 0x2_0000_0000
  {
    next := NextState(state);
    n := next / 0x2_0000_0000;
  }

  function Distance(col: nat, marker: int): nat {
    if col < marker then marker - col else col - marker
  }

  const DARK := Pixel(18, 18, 24)
  const WHITE := Pixel(255, 255, 255)

  function Noise(n: u32): Pixel {
    Pixel(40 + n % 0x80, 60 + n / 0x80 % 0x80, 90 + n / 0x4000 % 0x80)
  }

  function PixelAt(marker: int, seed: u64, row: nat, col: nat): Pixel {
    if Distance(col, marker) <= 2 then DARK
    else if Distance(col, marker) <= 4 then WHITE
    else Noise(Drawn(seed, row * WIDTH + col + 1) / 0x2_0000_0000)
  }

  function Row(marker: int, seed: u64, row: nat): (r: seq<Pixel>)
    ensures |r| == WIDTH
  {
    seq(WIDTH, col requires 0 <= col < WIDTH => PixelAt(marker, seed, row, col))
  }

  function Picture(marker: int, seed: u64): (r: seq<seq<Pixel>>)
    ensures |r| == HEIGHT
  {
    seq(HEIGHT, row requires 0 <= row < HEIGHT => Row(marker, seed, row))
  }

  // ----- scan lines -----

  function PixelBytes(row: seq<Pixel>): (r: seq<byte>)
    ensures |r| == 3 * |row|
  {
    if row == [] then [] else PixelBytes(row[..|row| - 1]) + [row[|row| - 1].r, row[|row| - 1].g, row[|row| - 1].b]
  }

  function ReadPixels(s: seq<byte>): (r: seq<Pixel>)
    requires |s| % 3 == 0
    ensures |r| == |s| / 3
  {
    seq(|s| / 3, i requires 0 <= i < |s| / 3 => Pixel(s[3 * i], s[3 * i + 1], s[3 * i + 2]))
  }

  /** A row under filter type 0. */
  function ScanLine(row: seq<Pixel>): (r: seq<byte>)
    ensures |r| == 1 + 3 * |row|
  {
    [0] + PixelBytes(row)
  }

  function ScanLines(rows: seq<seq<Pixel>>): seq<byte> {
    if rows == [] then [] else ScanLines(rows[..|rows| - 1]) + ScanLine(rows[|rows| - 1])
  }

  function ReadScanLines(s: seq<byte>, width: nat): Option<seq<seq<Pixel>>>
    decreases |s|
  {
    if s == [] then Some([])
    else if |s| < 1 + 3 * width || s[0] != 0 then None
    else
      match ReadScanLines(s[1 + 3 * width..], width)
      case None => None
      case Some(more) => Some([ReadPixels(s[1..1 + 3 * width])] + more)
  }

  lemma {:induction false} PixelBytesAt(row: seq<Pixel>, i: nat)
    requires i < |row|
    ensures var s := PixelBytes(row); Pixel(s[3 * i], s[3 * i + 1], s[3 * i + 2]) == row[i]
  {
    if i < |row| - 1 {
      PixelBytesAt(row[..|row| - 1], i);
    }
  }

  lemma ReadPixelBytes(row: seq<Pixel>)
    ensures ReadPixels(PixelBytes(row)) == row
  {
    forall i | 0 <= i < |row| ensures ReadPixels(PixelBytes(row))[i] == row[i] {
      PixelBytesAt(row, i);
    }
  }

  lemma {:induction false} ScanLinesAppend(a: seq<seq<Pixel>>, b: seq<seq<Pixel>>)
    ensures ScanLines(a + b) == ScanLines(a) + ScanLines(b)
  {
    if b == [] {
      assert a + b == a;
    } else {
      var init, last := b[..|b| - 1], b[|b| - 1];
      assert (a + b)[..|a + b| - 1] == a + init && (a + b)[|a + b| - 1] == last;
      ScanLinesAppend(a, init);
      assert ScanLines(a + b) == ScanLines(a + init) + ScanLine(last);
      Associate(ScanLines(a), ScanLines(init), ScanLine(last));
    }
  }

  lemma Associate(a: seq<byte>, b: seq<byte>, c: seq<byte>)
    ensures (a + b) + c == a + (b + c)
  {
  }

  lemma ScanLinesFirst(rows: seq<seq<Pixel>>)
    requires rows != []
    ensures ScanLines(rows) == ScanLine(rows[0]) + ScanLines(rows[1..])
  {
    var first := [rows[0]];
    assert rows == first + rows[1..];
    ScanLinesAppend(first, rows[1..]);
    assert first[..0] == [];
  }

  lemma LineParts(line: seq<byte>, rest: seq<byte>)
    ensures var s := ([0] + line) + rest; s[0] == 0 && s[1..1 + |line|] == line && s[1 + |line|..] == rest
  {
  }

  lemma {:induction false} ReadScanned(rows: seq<seq<Pixel>>, width: nat)
    requires forall i | 0 <= i < |rows| :: |rows[i]| == width
    ensures ReadScanLines(ScanLines(rows), width) == Some(rows)
  {
    if rows != [] {
      ScanLinesFirst(rows);
      ReadScanned(rows[1..], width);
      ReadPixelBytes(rows[0]);
      LineParts(PixelBytes(rows[0]), ScanLines(rows[1..]));
      assert rows == [rows[0]] + rows[1..];
    }
  }

  lemma {:induction false} ScanLinesSize(rows: seq<seq<Pixel>>, width: nat)
    requires forall i | 0 <= i < |rows| :: |rows[i]| == width
    ensures |ScanLines(rows)| == |rows| * (1 + 3 * width)
  {
    if rows != [] {
      var n := |rows| - 1;
      ScanLinesSize(rows[..n], width);
      OneMoreTimes(n, 1 + 3 * width);
    }
  }

  lemma OneMoreTimes(n: nat, size: nat)
    ensures (n + 1) * size == n * size + size
  {
  }

  // ----- the file -----

  const SIGNATURE: seq<byte> := [0x89, 0x50, 0x4e, 0x47, 0x0d, 0x0a, 0x1a, 0x0a]
  const IHDR: seq<byte> := [0x49, 0x48, 0x44, 0x52]
  const IDAT: seq<byte> := [0x49, 0x44, 0x41, 0x54]
  const IEND: seq<byte> := [0x49, 0x45, 0x4e, 0x44]

  function Header(width: u32, height: u32): seq<byte> {
    BigEndian32(width) + BigEndian32(height) + [8, 2, 0, 0, 0]
  }

  function Chunks(width: u32, height: u32, raw: seq<byte>): seq<Chunk> {
    [Chunk(IHDR, Header(width, height)), Chunk(IDAT, Zlib.Stored(raw)), Chunk(IEND, [])]
  }

  /** A true-colour picture of 8-bit samples, not interlaced, with one data chunk. */
  function ReadPng(s: seq<byte>): Option<Image> {
    if |s| < 8 || s[..8] != SIGNATURE then None else
      match ReadChunks(s[8..])
      case None => None
      case Some(cs) => Decode(cs)
  }

  function Decode(cs: seq<Chunk>): Option<Image> {
    if |cs| != 3 || cs[0].kind != IHDR || cs[1].kind != IDAT || cs[2].kind != IEND || cs[2].data != []
       || |cs[0].data| != 13 || cs[0].data[8..] != [8, 2, 0, 0, 0] then None
    else
      var width, height := ReadBigEndian32(cs[0].data[..4]), ReadBigEndian32(cs[0].data[4..8]);
      match Zlib.Inflate(cs[1].data)
      case None => None
      case Some(raw) =>
        match ReadScanLines(raw, width)
        case None => None
        case Some(rows) => if |rows| == height then Some(Image(width, height, rows)) else None
  }

  lemma DecodeChunks(width: u32, height: u32, rows: seq<seq<Pixel>>)
    requires |rows| == height && forall i | 0 <= i < |rows| :: |rows[i]| == width
    ensures Decode(Chunks(width, height, ScanLines(rows))) == Some(Image(width, height, rows))
  {
    var h := Header(width, height);
    assert h[..4] == BigEndian32(width) && h[4..8] == BigEndian32(height) && h[8..] == [8, 2, 0, 0, 0];
    Zlib.InflateStored(ScanLines(rows));
    ReadScanned(rows, width);
  }

  /** What a row has written before its pixel `col`. */
  function Partial(marker: int, seed: u64, row: nat, col: nat): seq<byte>
    requires col <= WIDTH
  {
    ScanLine(Row(marker, seed, row)[..col])
  }

  lemma NextPixel(marker: int, seed: u64, row: nat, col: nat, p: Pixel)
    requires col < WIDTH && p == PixelAt(marker, seed, row, col)
    ensures Partial(marker, seed, row, col + 1) == Partial(marker, seed, row, col) + [p.r, p.g, p.b]
  {
    var line := Row(marker, seed, row);
    assert line[..col + 1][..col] == line[..col] && line[..col + 1][col] == p;
  }

  lemma NextRow(marker: int, seed: u64, row: nat)
    requires row < HEIGHT
    ensures ScanLines(Picture(marker, seed)[..row + 1])
         == ScanLines(Picture(marker, seed)[..row]) + ScanLine(Row(marker, seed, row))
  {
    var rows := Picture(marker, seed);
    assert rows[..row + 1][..row] == rows[..row] && rows[..row + 1][row] == Row(marker, seed, row);
  }

  method Paint(marker: int, col: nat, n: u32) returns (p: Pixel)
    ensures p == if Distance(col, marker) <= 2 then DARK else if Distance(col, marker) <= 4 then WHITE else Noise(n)
  {
    var r: byte, g: byte, b: byte := 40 + n % 0x80, 60 + n / 0x80 % 0x80, 90 + n / 0x4000 % 0x80;
    var d := Distance(col, marker);
    if d <= 2 {
      r, g, b := 18, 18, 24;
    } else if d <= 4 {
      r, g, b := 0xff, 0xff, 0xff;
    }
    p := Pixel(r, g, b);
  }

  /** The loop over the pixels of one row. */
  method RenderRow(marker: int, ghost seed: u64, ghost row: nat, state: u64) returns (line: seq<byte>, next: u64)
    requires state == Drawn(seed, row * WIDTH)
    ensures line == ScanLine(Row(marker, seed, row)) && next == Drawn(seed, (row + 1) * WIDTH)
  {
    line, next := [0], state;
    assert Row(marker, seed, row)[..0] == [];
    for col := 0 to WIDTH
      invariant line == Partial(marker, seed, row, col)
      invariant next == Drawn(seed, row * WIDTH + col)
    {
      var n: u32;
      next, n := Lcg(next);
      var p := Paint(marker, col, n);
      NextPixel(marker, seed, row, col, p);
      line := line + [p.r, p.g, p.b];
    }
    assert Row(marker, seed, row)[..WIDTH] == Row(marker, seed, row);
  }

  /** The loop over the rows. */
  method RenderRaw(marker: int, seed: u64) returns (raw: seq<byte>)
    ensures raw == ScanLines(Picture(marker, seed))
  {
    raw := [];
    var state := seed;
    for row := 0 to HEIGHT
      invariant raw == ScanLines(Picture(marker, seed)[..row])
      invariant state == Drawn(seed, row * WIDTH)
    {
      var line;
      line, state := RenderRow(marker, seed, row, state);
      NextRow(marker, seed, row);
      raw := raw + line;
    }
    assert Picture(marker, seed)[..HEIGHT] == Picture(marker, seed);
  }

  /** The three chunks of the picture read back as the picture. */
  lemma PictureReads(png: seq<byte>, marker: int, seed: u64)
    requires var cs := Chunks(WIDTH, HEIGHT, ScanLines(Picture(marker, seed)));
      png == SIGNATURE + Emit(cs[0]) + Emit(cs[1]) + Emit(cs[2])
    ensures |png| >= 8 && png[..8] == SIGNATURE
    ensures ReadChunks(png[8..]) == Some(Chunks(WIDTH, HEIGHT, ScanLines(Picture(marker, seed))))
    ensures ReadPng(png) == Some(Image(WIDTH, HEIGHT, Picture(marker, seed)))
  {
    var cs := Chunks(WIDTH, HEIGHT, ScanLines(Picture(marker, seed)));
    RawFits(marker, seed);
    FileReads(png, SIGNATURE, cs[0], cs[1], cs[2]);
    DecodeChunks(WIDTH, HEIGHT, Picture(marker, seed));
  }

  method RenderPng(answer: real) returns (png: seq<byte>)
    ensures |png| >= 8 && png[..8] == [0x89, 0x50, 0x4e, 0x47, 0x0d, 0x0a, 0x1a, 0x0a]
    ensures ReadChunks(png[8..]) == Some(Chunks(160, 60, ScanLines(Picture(MarkerPixel(answer), SeedOf(answer)))))
    ensures ReadPng(png) == Some(Image(160, 60, Picture(MarkerPixel(answer), SeedOf(answer))))
  {
    var marker, seed := MarkerPixel(answer), SeedOf(answer);
    var raw := RenderRaw(marker, seed);
    png := SIGNATURE;
    var header := BigEndian32(WIDTH) + BigEndian32(HEIGHT) + [8, 2, 0, 0, 0];
    png := WriteChunk(png, IHDR, header);
    var idat := Zlib.ZlibStore(raw);
    png := WriteChunk(png, IDAT, idat);
    png := WriteChunk(png, IEND, []);
    PictureReads(png, marker, seed);
  }

  lemma RawFits(marker: int, seed: u64)
    ensures forall c <- Chunks(WIDTH, HEIGHT, ScanLines(Picture(marker, seed))) :: WellFormed(c)
  {
    ScanLinesSize(Picture(marker, seed), WIDTH);
    Zlib.StoredSize(ScanLines(Picture(marker, seed)));
  }

  lemma EmitFirst(c: Chunk, cs: seq<Chunk>)
    ensures EmitAll([c] + cs) == Emit(c) + EmitAll(cs)
  {
    assert ([c] + cs)[1..] == cs;
  }

  lemma FileReads(png: seq<byte>, signature: seq<byte>, a: Chunk, b: Chunk, c: Chunk)
    requires WellFormed(a) && WellFormed(b) && WellFormed(c)
    requires |signature| == 8 && png == signature + Emit(a) + Emit(b) + Emit(c)
    ensures |png| >= 8 && png[..8] == signature && ReadChunks(png[8..]) == Some([a, b, c])
  {
    EmitFirst(c, []);
    EmitFirst(b, [c] + []);
    EmitFirst(a, [b] + ([c] + []));
    var cs := [a] + ([b] + ([c] + []));
    ReadAllEmitted(cs);
    assert cs == [a, b, c];
    SkipSignature(signature, Emit(a), Emit(b), Emit(c));
  }

  lemma SkipSignature(s: seq<byte>, a: seq<byte>, b: seq<byte>, c: seq<byte>)
    requires |s| == 8
    ensures var png := s + a + b + c; png[..8] == s && png[8..] == a + (b + (c + []))
  {
  }

  // ----- the marker can be read off the picture -----

  /** The dark band is exactly the five columns around the marker, and nothing else has its colour. */
  lemma DarkIffNearMarker(marker: int, seed: u64, row: nat, col: nat)
    requires row < HEIGHT && col < WIDTH
    ensures Picture(marker, seed)[row][col] == DARK <==> Distance(col, marker) <= 2
    ensures Picture(marker, seed)[row][col] == WHITE <==> 2 < Distance(col, marker) <= 4
  {
  }

  /** Pictures with the same pixels have the same marker, whatever their noise. */
  lemma MarkerDetermined(m: nat, n: nat, seed: u64, seed': u64)
    requires m < WIDTH && n < WIDTH && Picture(m, seed) == Picture(n, seed')
    ensures m == n
  {
    var low, high := if m < n then m else n, if m < n then n else m;
    if low >= 2 {
      DarkIffNearMarker(m, seed, 0, low - 2);
      DarkIffNearMarker(n, seed', 0, low - 2);
    } else {
      var col := if high - low <= 5 then low + 3 else low;
      DarkIffNearMarker(m, seed, 0, col);
      DarkIffNearMarker(n, seed', 0, col);
    }
  }

  /** Reading the marker's column back gives the percentage up to half a column, well within the tolerance of 4. */
  lemma MarkerWithinTolerance(answer: real)
    ensures MarkerPixel(answer) < WIDTH
    ensures var shown := PixelToPercent(MarkerPixel(answer));
      && (0.0 <= answer <= 100.0 ==> -0.32 < answer - shown < 0.32)
      && (answer < 0.0 ==> shown == 0.0) && (answer > 100.0 ==> shown == 100.0)
  {
    var exact := Clamp(answer) / 100.0 * 159.0;
    assert 0.0 <= exact <= 159.0;
    assert (exact + 0.5).Floor as real <= exact + 0.5 < (exact + 0.5).Floor as real + 1.0;
  }

  const WORD: nat := 0x1_0000_0000_0000_0000

  lemma AddWrapped(x: nat, y: nat)
    ensures (x % WORD + y) % WORD == (x + y) % WORD
  {
    assert x == WORD * (x / WORD) + x % WORD;
    WrapOff(x % WORD + y, x / WORD);
  }

  lemma WrapOff(x: nat, q: nat)
    ensures (x + WORD * q) % WORD == x % WORD
  {
  }

  /** The seed moves by one odd constant per whole percent; a fraction or a negative answer does not count. */
  lemma SeedPerPercent(answer: nat, fraction: real)
    requires answer < U64_MAX && 0.0 <= fraction < 1.0
    ensures SeedOf(-fraction) == 0x1234_5678_9ABC_DEF0
    ensures SeedOf((answer + 1) as real) == (SeedOf(answer as real) + 0x9E37_79B9_7F4A_7C15) % 0x1_0000_0000_0000_0000
    ensures SeedOf(answer as real + fraction) == SeedOf(answer as real)
  {
    assert (answer as real + fraction).Floor == answer && (answer as real).Floor == answer;
    assert ((answer + 1) as real).Floor == answer + 1;
    NextSeed(answer, 0x9E37_79B9_7F4A_7C15, 0x1234_5678_9ABC_DEF0);
  }

  lemma NextSeed(n: nat, factor: nat, start: nat)
    ensures ((n + 1) * factor + start) % WORD == ((n * factor + start) % WORD + factor) % WORD
  {
    AddWrapped(n * factor + start, factor);
    assert (n + 1) * factor + start == n * factor + start + factor;
  }

  /** The generator is the affine one with these constants. */
  lemma GeneratorPerState(state: u64)
    ensures NextState(0) == 1442695040888963407
    ensures state > 0 ==> NextState(state) == (NextState(state - 1) + 6364136223846793005) % 0x1_0000_0000_0000_0000
  {
    if state > 0 {
      NextSeed(state - 1, 6364136223846793005, 1442695040888963407);
    }
  }

  /** Each colour holds seven bits of a draw, the lowest in red. */
  lemma NoiseHoldsDraw(low: nat, middle: nat, high: nat, rest: nat)
    requires low < 0x80 && middle < 0x80 && high < 0x80 && rest < 0x800
    ensures Noise(low + 0x80 * (middle + 0x80 * (high + 0x80 * rest))) == Pixel(40 + low, 60 + middle, 90 + high)
  {
    var above := high + 0x80 * rest;
    var n := low + 0x80 * (middle + 0x80 * above);
    Digit(low, middle + 0x80 * above);
    Digit(middle, above);
    Digit(high, rest);
    assert n / 0x4000 == n / 0x80 / 0x80;
  }

  lemma Digit(low: nat, above: nat)
    requires low < 0x80
    ensures (low + 0x80 * above) % 0x80 == low && (low + 0x80 * above) / 0x80 == above
  {
  }

  /** Answers are whole percentages: different ones have different pictures. */
  lemma AnswerDetermined(a: nat, b: nat)
    requires a <= 100 && b <= 100
    requires Picture(MarkerPixel(a as real), SeedOf(a as real)) == Picture(MarkerPixel(b as real), SeedOf(b as real))
    ensures a == b
  {
    MarkerWithinTolerance(a as real);
    MarkerWithinTolerance(b as real);
    MarkerDetermined(MarkerPixel(a as real), MarkerPixel(b as real), SeedOf(a as real), SeedOf(b as real));
  }
}
