/** The synthetic BMP image: writer, independent decoder, and the round trip between them. */
module Bmp {
  import opened Arithmetic

  type byte = x: int | 0 <= x < 256

  const INT_MAX: int := 0x7FFF_FFFF

  /** Bytes per row, padded to a multiple of four. */
  function RowSize(width: nat): (r: nat)
    ensures r >= 3 * width && r < 3 * width + 4
  {
    (width * 3 + 3) / 4 * 4
  }

  function FileSize(width: nat, height: nat): nat { 54 + Mul(RowSize(width), height) }

  /** Every intermediate value of the writer fits in a signed 32-bit int. */
  predicate FitsInt(width: nat, height: nat) {
    FileSize(width, height) <= INT_MAX && width * 255 <= INT_MAX && height * 255 <= INT_MAX
  }

  /** `n & 0xFF`, `(n >> 8) & 0xFF`, ... of a non-negative int. */
  function LittleEndian(n: nat): (r: seq<byte>)
    ensures |r| == 4
  {
    [n % 256, n / 0x100 % 256, n / 0x1_0000 % 256, n / 0x100_0000 % 256]
  }

  function Header(width: nat, height: nat): (r: seq<byte>)
    ensures |r| == 54
  {
    [0x42, 0x4D] + LittleEndian(FileSize(width, height)) + [0, 0, 0, 0] + [54, 0, 0, 0]
    + [40, 0, 0, 0] + LittleEndian(width) + LittleEndian(height) + [1, 0] + [24, 0] + [0, 0, 0, 0] + Zeros(20)
  }

  function Zeros(n: nat): (r: seq<byte>)
    ensures |r| == n
  {
    seq(n, _ => 0)
  }

  /** The colour ramp 255 * x / width: blue along x, and with y and height green along y. */
  function Ramp(x: nat, width: nat): byte
    requires x < width
  {
    QuotientBelow(x, width);
    x * 255 / width
  }

  lemma {:induction false} QuotientBelow(x: nat, width: nat)
    requires x < width
    ensures x * 255 / width < 255
  {
    var q := x * 255 / width;
    assert q * width <= x * 255 < 255 * width;
    if q >= 255 {
      MulMonotone(width, 255, q);
    }
  }

  /** The first n pixels of row y, in B, G, R order. */
  function Pixels(width: nat, height: nat, y: nat, n: nat): (r: seq<byte>)
    requires n <= width && y < height
    ensures |r| == 3 * n
  {
    if n == 0 then [] else Pixels(width, height, y, n - 1) + [Ramp(n - 1, width), Ramp(y, height), 128]
  }

  function Row(width: nat, height: nat, y: nat): (r: seq<byte>)
    requires y < height
    ensures |r| == RowSize(width)
  {
    Pixels(width, height, y, width) + Zeros(RowSize(width) - 3 * width)
  }

  function Rows(width: nat, height: nat, n: nat): seq<byte>
    requires n <= height
  {
    if n == 0 then [] else Rows(width, height, n - 1) + Row(width, height, n - 1)
  }

  function Encode(width: nat, height: nat): seq<byte> {
    Header(width, height) + Rows(width, height, height)
  }

  // ----- the writer -----

  method PushRow(width: nat, height: nat, y: nat, front: seq<byte>) returns (out: seq<byte>)
    requires y < height
    ensures out == front + Row(width, height, y)
  {
    hide RowSize, Ramp;
    out := front;
    for x := 0 to width
      invariant out == front + Pixels(width, height, y, x)
    {
      QuotientBelow(x, width);
      QuotientBelow(y, height);
      out := out + [Ramp(x, width)];
      out := out + [Ramp(y, height)];
      out := out + [128];
    }
    ghost var pixels := front + Pixels(width, height, y, width);
    for p := 0 to RowSize(width) - width * 3
      invariant out == pixels + Zeros(p)
    {
      out := out + [0];
    }
  }

  method PushHeader(width: nat, height: nat) returns (out: seq<byte>)
    requires FitsInt(width, height)
    ensures out == Header(width, height)
  {
    var rowSize := (width * 3 + 3) / 4 * 4;
    var imageSize := rowSize * height;
    var fileSize := 54 + imageSize;
    out := [0x42, 0x4D];
    out := out + [fileSize % 256, fileSize / 0x100 % 256, fileSize / 0x1_0000 % 256, fileSize / 0x100_0000 % 256];
    out := out + [0, 0, 0, 0];
    out := out + [54, 0, 0, 0];
    out := out + [40, 0, 0, 0];
    out := out + [width % 256, width / 0x100 % 256, width / 0x1_0000 % 256, width / 0x100_0000 % 256];
    out := out + [height % 256, height / 0x100 % 256, height / 0x1_0000 % 256, height / 0x100_0000 % 256];
    out := out + [1, 0];
    out := out + [24, 0];
    out := out + [0, 0, 0, 0];
    ghost var front := out;
    for i := 0 to 20
      invariant out == front + Zeros(i)
    {
      out := out + [0];
    }
  }

  method CreateBenchmarkImage(width: nat, height: nat) returns (out: seq<byte>)
    requires FitsInt(width, height)
    ensures out == Encode(width, height)
  {
    hide Row, Header;
    out := PushHeader(width, height);
    ghost var front := out;
    for y := 0 to height
      invariant out == front + Rows(width, height, y)
    {
      out := PushRow(width, height, y, out);
    }
  }

  // ----- the decoder -----

  function Le16(s: seq<byte>, off: nat): nat
    requires off + 2 <= |s|
  {
    var b0: int, b1: int := s[off], s[off + 1];
    b0 + 0x100 * b1
  }

  function Le32(s: seq<byte>, off: nat): nat
    requires off + 4 <= |s|
  {
    var b0: int, b1: int, b2: int, b3: int := s[off], s[off + 1], s[off + 2], s[off + 3];
    b0 + 0x100 * b1 + 0x1_0000 * b2 + 0x100_0000 * b3
  }

  /** Row stride of a BITMAPINFOHEADER image: bits per row rounded up to 32, in bytes. */
  function Stride(width: nat, bitsPerPixel: nat): nat {
    (width * bitsPerPixel + 31) / 32 * 4
  }

  datatype Pixel = Pixel(red: byte, green: byte, blue: byte)

  /** A 24-bit uncompressed image whose sizes are consistent. */
  predicate IsImage(s: seq<byte>) {
    && |s| >= 54 && s[0] == 0x42 && s[1] == 0x4D
    && Le32(s, 2) == |s| && Le32(s, 10) == 54 && Le32(s, 14) == 40
    && Le16(s, 26) == 1 && Le16(s, 28) == 24 && Le32(s, 30) == 0
    && |s| == Le32(s, 10) + Mul(Stride(Le32(s, 18), Le16(s, 28)), Le32(s, 22))
  }

  /** Where the stored pixel (x, y) starts. */
  function PixelOffset(s: seq<byte>, x: nat, y: nat): (off: nat)
    requires IsImage(s) && x < Le32(s, 18) && y < Le32(s, 22)
    ensures off + 3 <= |s|
  {
    var stride := Stride(Le32(s, 18), Le16(s, 28));
    RowInside(stride, y, Le32(s, 22));
    StrideHoldsRow(Le32(s, 18));
    Le32(s, 10) + Mul(stride, y) + 3 * x
  }

  function PixelAt(s: seq<byte>, x: nat, y: nat): Pixel
    requires IsImage(s) && x < Le32(s, 18) && y < Le32(s, 22)
  {
    var off := PixelOffset(s, x, y);
    Pixel(s[off + 2], s[off + 1], s[off])
  }

  lemma {:induction false} RowInside(stride: nat, y: nat, height: nat)
    requires y < height
    ensures Mul(stride, y) + stride <= Mul(stride, height)
  {
    MulSucc(stride, y);
    MulMonotone(stride, y + 1, height);
  }

  lemma {:induction false} StrideHoldsRow(width: nat)
    ensures Stride(width, 24) == RowSize(width) >= 3 * width
  {
    assert (width * 24 + 31) / 32 == (width * 3 + 3) / 4;
  }

  // ----- the round trip -----

  lemma ByteSplit(n: nat)
    ensures n == n % 256 + 0x100 * (n / 0x100)
    ensures n / 0x1_0000 == n / 0x100 / 0x100
    ensures n / 0x100_0000 == n / 0x1_0000 / 0x100
  {
  }

  lemma {:induction false} LittleEndianDecodes(n: nat)
    requires n <= INT_MAX
    ensures Le32(LittleEndian(n), 0) == n
  {
    ByteSplit(n);
    ByteSplit(n / 0x100);
    ByteSplit(n / 0x1_0000);
    assert n / 0x100_0000 < 256;
  }

  lemma {:induction false} FieldAt(s: seq<byte>, off: nat, n: nat)
    requires n <= INT_MAX && off + 4 <= |s| && s[off..off + 4] == LittleEndian(n)
    ensures Le32(s, off) == n
  {
    LittleEndianDecodes(n);
    assert s[off..off + 4][0] == s[off] && s[off..off + 4][1] == s[off + 1];
    assert s[off..off + 4][2] == s[off + 2] && s[off..off + 4][3] == s[off + 3];
  }

  lemma {:induction false} HeaderFields(width: nat, height: nat)
    requires FitsInt(width, height)
    ensures var s := Header(width, height);
      && s[0] == 0x42 && s[1] == 0x4D
      && Le32(s, 2) == FileSize(width, height) && Le32(s, 10) == 54 && Le32(s, 14) == 40
      && Le32(s, 18) == width && Le32(s, 22) == height
      && Le16(s, 26) == 1 && Le16(s, 28) == 24 && Le32(s, 30) == 0
  {
    hide LittleEndian, FileSize;
    var s := Header(width, height);
    assert s[2..6] == LittleEndian(FileSize(width, height));
    assert s[18..22] == LittleEndian(width);
    assert s[22..26] == LittleEndian(height);
    FieldAt(s, 2, FileSize(width, height));
    FieldAt(s, 18, width);
    FieldAt(s, 22, height);
  }

  lemma {:induction false} RowsLayout(width: nat, height: nat, n: nat)
    requires n <= height
    ensures |Rows(width, height, n)| == Mul(RowSize(width), n)
    ensures forall y :: 0 <= y < n ==> Mul(RowSize(width), y) + RowSize(width) <= |Rows(width, height, n)|
    ensures forall y :: 0 <= y < n ==>
      Rows(width, height, n)[Mul(RowSize(width), y)..Mul(RowSize(width), y) + RowSize(width)] == Row(width, height, y)
  {
    hide Mul, RowSize, Row;
    if n == 0 {
      MulZero(RowSize(width));
    } else {
      RowsLayout(width, height, n - 1);
      MulSucc(RowSize(width), n - 1);
      var front, rs := Rows(width, height, n - 1), RowSize(width);
      forall y | 0 <= y < n
        ensures Mul(rs, y) + rs <= |Rows(width, height, n)|
        ensures Rows(width, height, n)[Mul(rs, y)..Mul(rs, y) + rs] == Row(width, height, y)
      {
        if y < n - 1 {
          assert Rows(width, height, n)[Mul(rs, y)..Mul(rs, y) + rs] == front[Mul(rs, y)..Mul(rs, y) + rs];
        }
      }
    }
  }

  lemma {:induction false} PixelsLayout(width: nat, height: nat, y: nat, n: nat, x: nat)
    requires x < n <= width && y < height
    ensures Pixels(width, height, y, n)[3 * x..3 * x + 3] == [Ramp(x, width), Ramp(y, height), 128]
  {
    hide Ramp;
    if x < n - 1 {
      PixelsLayout(width, height, y, n - 1, x);
      assert Pixels(width, height, y, n)[3 * x..3 * x + 3] == Pixels(width, height, y, n - 1)[3 * x..3 * x + 3];
    }
  }

  /** The buffer has exactly 54 + rowSize * height bytes and its header describes exactly this image. */
  lemma {:induction false} EncodeIsImage(width: nat, height: nat)
    requires FitsInt(width, height)
    ensures var s := Encode(width, height);
      && |s| == 54 + Mul(RowSize(width), height) && IsImage(s)
      && Le32(s, 18) == width && Le32(s, 22) == height
  {
    var s, header := Encode(width, height), Header(width, height);
    HeaderFields(width, height);
    RowsLayout(width, height, height);
    StrideHoldsRow(width);
    hide Header, Rows, Row, RowSize, Stride, Mul;
    assert forall i :: 0 <= i < 54 ==> s[i] == header[i];
    forall off: nat | off + 4 <= 54 ensures Le32(s, off) == Le32(header, off) {
    }
    assert Le16(s, 26) == Le16(header, 26) && Le16(s, 28) == Le16(header, 28);
  }

  lemma {:induction false} RowBytes(width: nat, height: nat, x: nat, y: nat)
    requires x < width && y < height
    ensures RowSize(width) >= 3 * x + 3
    ensures var row := Row(width, height, y);
      row[3 * x] == Ramp(x, width) && row[3 * x + 1] == Ramp(y, height) && row[3 * x + 2] == 128
  {
    hide Ramp;
    PixelsLayout(width, height, y, width, x);
    var pixels := Pixels(width, height, y, width);
    var three := pixels[3 * x..3 * x + 3];
    assert three[0] == pixels[3 * x] && three[1] == pixels[3 * x + 1] && three[2] == pixels[3 * x + 2];
  }

  lemma {:induction false} ByteAt(s: seq<byte>, rows: seq<byte>, row: seq<byte>, base: nat, j: nat)
    requires |s| == 54 + |rows| && s[54..] == rows
    requires base + |row| <= |rows| && rows[base..base + |row|] == row && j < |row|
    ensures s[54 + base + j] == row[j]
  {
    assert s[54 + base + j] == s[54..][base + j] == rows[base..base + |row|][j];
  }

  /** Every pixel is stored at its place, three bytes wide. */
  lemma {:induction false} StoredBytes(width: nat, height: nat, x: nat, y: nat)
    requires x < width && y < height
    ensures var s, off := Encode(width, height), 54 + Mul(RowSize(width), y) + 3 * x;
      off + 3 <= |s| && s[off] == Ramp(x, width) && s[off + 1] == Ramp(y, height) && s[off + 2] == 128
  {
    RowBytes(width, height, x, y);
    hide Encode, Row, Mul, RowSize, Ramp;
    StoredByte(width, height, y, 3 * x);
    StoredByte(width, height, y, 3 * x + 1);
    StoredByte(width, height, y, 3 * x + 2);
  }

  lemma {:induction false} StoredByte(width: nat, height: nat, y: nat, j: nat)
    requires y < height && j < RowSize(width)
    ensures var at := 54 + Mul(RowSize(width), y) + j;
      at < |Encode(width, height)| && Encode(width, height)[at] == Row(width, height, y)[j]
  {
    var s, rows := Encode(width, height), Rows(width, height, height);
    RowsLayout(width, height, height);
    hide Rows, Row, Header, Mul, RowSize;
    assert s[54..] == rows;
    ByteAt(s, rows, Row(width, height, y), Mul(RowSize(width), y), j);
  }

  /** Decoding what was written recovers every pixel. */
  lemma {:induction false} DecodeRecoversPixel(width: nat, height: nat, x: nat, y: nat)
    requires FitsInt(width, height) && x < width && y < height
    ensures var s := Encode(width, height);
      && IsImage(s) && Le32(s, 18) == width && Le32(s, 22) == height
      && PixelOffset(s, x, y) == 54 + Mul(RowSize(width), y) + 3 * x
      && PixelAt(s, x, y) == Pixel(128, Ramp(y, height), Ramp(x, width))
  {
    EncodeIsImage(width, height);
    StoredBytes(width, height, x, y);
    StrideHoldsRow(width);
    HeaderConstants(Encode(width, height));
    hide Encode, Mul, RowSize, Stride, Ramp, Le32, Le16, IsImage;
  }

  lemma HeaderConstants(s: seq<byte>)
    requires IsImage(s)
    ensures Le32(s, 10) == 54 && Le16(s, 28) == 24
  {
  }

  /** The four bytes from `off` on hold n, the lowest first. */
  predicate HoldsInt(s: seq<byte>, off: nat, n: nat) {
    && off + 4 <= |s|
    && s[off] as int + 256 * s[off + 1] as int + 65536 * s[off + 2] as int + 16777216 * s[off + 3] as int == n
  }

  /** The header, byte by byte: `BM`, the size of the whole file, where the pixels start, the size of the second header,
      width and height, one plane, 24 bits per pixel, and zeros. */
  lemma {:induction false} HeaderIs(width: nat, height: nat)
    requires FitsInt(width, height)
    ensures var s := Encode(width, height);
      && |s| == 54 + (width * 3 + 3) / 4 * 4 * height
      && s[0] == 66 && s[1] == 77 && HoldsInt(s, 2, |s|) && HoldsInt(s, 6, 0) && HoldsInt(s, 10, 54)
      && HoldsInt(s, 14, 40) && HoldsInt(s, 18, width) && HoldsInt(s, 22, height)
      && s[26] == 1 && s[27] == 0 && s[28] == 24 && s[29] == 0
      && forall i :: 30 <= i < 54 ==> s[i] == 0
  {
    var s, header := Encode(width, height), Header(width, height);
    HeaderFields(width, height);
    RowsLayout(width, height, height);
    hide Rows, Row, LittleEndian;
    assert forall i :: 0 <= i < 54 ==> s[i] == header[i];
  }

  /** The pixels, byte by byte, first row first: blue and green are the places along x and y as 255ths of width and
      height, rounded down, red is 128; what a row lacks to a multiple of four bytes is zero. */
  lemma {:induction false} PixelIs(width: nat, height: nat, x: nat, y: nat, at: nat)
    requires FitsInt(width, height) && x < width && y < height && at == 54 + (width * 3 + 3) / 4 * 4 * y + 3 * x
    ensures var s := Encode(width, height);
      && at + 3 <= |s|
      && s[at] as int * width <= 255 * x < (s[at] as int + 1) * width
      && s[at + 1] as int * height <= 255 * y < (s[at + 1] as int + 1) * height
      && s[at + 2] == 128
  {
    StoredBytes(width, height, x, y);
    RampIs(x, width);
    RampIs(y, height);
    hide Encode, Ramp;
  }

  lemma {:induction false} RampIs(x: nat, width: nat)
    requires x < width
    ensures Ramp(x, width) as int * width <= 255 * x < (Ramp(x, width) as int + 1) * width
  {
    QuotientBelow(x, width);
    var q := x * 255 / width;
    assert q * width <= x * 255 < (q + 1) * width;
  }

  lemma {:induction false} PaddingIs(width: nat, height: nat, y: nat, j: nat, at: nat)
    requires FitsInt(width, height) && y < height && 3 * width <= j < (width * 3 + 3) / 4 * 4
    requires at == 54 + (width * 3 + 3) / 4 * 4 * y + j
    ensures at < |Encode(width, height)| && Encode(width, height)[at] == 0
  {
    StoredByte(width, height, y, j);
    hide Encode;
  }
}
