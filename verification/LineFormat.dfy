/** Converting a line of a frame to the bytes the encoder takes (to_jpg.cpp). */
module LineFormat {
  import opened Bits
  import B = BitBuffer

  datatype Format = Grayscale | Rgb888 | Rgb565 | Yuv422

  /** yuv2rgb, whatever its tables. */
  type ToRgb = (byte, byte, byte) -> Rgb

  /** Bytes of a line of the frame. */
  function LineLen(format: Format, width: nat): nat {
    match format
    case Grayscale => width
    case Rgb888 => width * 3
    case _ => width * 2
  }

  function Channels(format: Format): (n: nat)
    ensures n == 1 || n == 3
  {
    if format.Grayscale? then 1 else 3
  }

  /** Two pixels of a YUV line share their colour, so it holds an even number of them. */
  predicate WholePairs(format: Format, width: nat) {
    format.Yuv422? ==> width % 2 == 0
  }

  /** Red, green and blue of a pixel of 5, 6 and 5 bits, each in the high bits of a byte. */
  function Unpack565(high: byte, low: byte): Rgb {
    var pixel: int := 256 * (high as int) + low;
    Rgb(pixel / 2048 * 8, pixel / 32 % 64 * 4, pixel % 32 * 8)
  }

  /** The colour of pixel x: the frame stores RGB888 with blue first, RGB565 with the high byte first,
      and YUV in pairs that share U and V. */
  function ColourAt(format: Format, toRgb: ToRgb, raw: seq<byte>, width: nat, x: nat): Rgb
    requires |raw| == LineLen(format, width) && WholePairs(format, width) && x < width
  {
    match format
    case Grayscale => Rgb(raw[x], raw[x], raw[x])
    case Rgb888 => Rgb(raw[3 * x + 2], raw[3 * x + 1], raw[3 * x])
    case Rgb565 => Unpack565(raw[2 * x], raw[2 * x + 1])
    case Yuv422 => var at := x - x % 2; toRgb(raw[2 * x], raw[2 * at + 1], raw[2 * at + 3])
  }

  /** The bytes of one pixel stand at its place of the scanline. */
  predicate PixelAt(line: seq<byte>, x: nat, c: Rgb)
    requires 3 * x + 2 < |line|
  {
    line[3 * x] == c.r && line[3 * x + 1] == c.g && line[3 * x + 2] == c.b
  }

  /** line is the scanline for the line raw of the frame. */
  ghost predicate IsConverted(format: Format, toRgb: ToRgb, raw: seq<byte>, width: nat, line: seq<byte>)
    requires |raw| == LineLen(format, width) && WholePairs(format, width)
  {
    if format.Grayscale? then line == raw
    else |line| == 3 * width && forall x: nat :: x < width ==> PixelAt(line, x, ColourAt(format, toRgb, raw, width, x))
  }

  function Component(c: Rgb, k: nat): byte {
    if k == 0 then c.r else if k == 1 then c.g else c.b
  }

  /** The scanline for the line raw of the frame. */
  function Converted(format: Format, toRgb: ToRgb, raw: seq<byte>, width: nat): (line: seq<byte>)
    requires |raw| == LineLen(format, width) && WholePairs(format, width)
    ensures |line| == width * Channels(format)
  {
    if format.Grayscale? then raw
    else seq(3 * width, k requires 0 <= k < 3 * width => Component(ColourAt(format, toRgb, raw, width, k / 3), k % 3))
  }

  lemma ConvertedPixels(format: Format, toRgb: ToRgb, raw: seq<byte>, width: nat)
    requires |raw| == LineLen(format, width) && WholePairs(format, width)
    ensures IsConverted(format, toRgb, raw, width, Converted(format, toRgb, raw, width))
  {
    hide ColourAt;
  }

  /** There is just one such scanline. */
  lemma ConvertedOnce(format: Format, toRgb: ToRgb, raw: seq<byte>, width: nat, a: seq<byte>, b: seq<byte>)
    requires |raw| == LineLen(format, width) && WholePairs(format, width)
    requires IsConverted(format, toRgb, raw, width, a) && IsConverted(format, toRgb, raw, width, b)
    ensures a == b
  {
    if !format.Grayscale? {
      hide ColourAt;
      forall k | 0 <= k < |a|
        ensures a[k] == b[k]
      {
        var x: nat := k / 3;
        assert PixelAt(a, x, ColourAt(format, toRgb, raw, width, x))
          && PixelAt(b, x, ColourAt(format, toRgb, raw, width, x));
        assert k == 3 * x || k == 3 * x + 1 || k == 3 * x + 2;
      }
    }
  }

  /** The masks and shifts of the conversion take the three fields of an RGB565 pixel apart. */
  lemma FieldsOf565(high: byte, low: byte)
    ensures var c := Unpack565(high, low);
      && c.r == high - high % 8 && c.b == Shl(low % 32, 3)
      && c.g == B.Or(Shl(high % 8, 5), Shr(low - low % 32, 3))
  {
    hide Shl, Shr, B.Or, Pow2, Unpack565;
    Fields(high, low);
    SmallShifts(low % 32);
    SmallShifts(high % 8);
    SmallShifts(4 * (low / 32));
    assert low - low % 32 == 8 * (4 * (low / 32));
    FivePow2();
    B.OrDisjoint(high % 8, 4 * (low / 32), 5);
  }

  /** An RGB888 pixel, blue first, and the RGB565 pixel of the same fields, red in the high bits, give the
      same colour. */
  lemma SameFields(toRgb: ToRgb, a: seq<byte>, b: seq<byte>, width: nat, x: nat, red: nat, green: nat, blue: nat)
    requires |a| == LineLen(Rgb888, width) && |b| == LineLen(Rgb565, width) && x < width
    requires red < 32 && green < 64 && blue < 32
    requires a[3 * x..3 * x + 3] == [8 * blue, 4 * green, 8 * red]
    requires b[2 * x..2 * x + 2] == [8 * red + green / 8, 32 * (green % 8) + blue]
    ensures ColourAt(Rgb888, toRgb, a, width, x) == ColourAt(Rgb565, toRgb, b, width, x)
         == Rgb(8 * red, 4 * green, 8 * blue)
  {
    hide Unpack565;
    var high, low := b[2 * x..2 * x + 2][0], b[2 * x..2 * x + 2][1];
    assert a[3 * x] == a[3 * x..3 * x + 3][0] && a[3 * x + 1] == a[3 * x..3 * x + 3][1]
      && a[3 * x + 2] == a[3 * x..3 * x + 3][2];
    Fields(high, low);
    SplitFields(red, green, blue);
  }

  lemma SplitFields(red: nat, green: nat, blue: nat)
    requires red < 32 && green < 64 && blue < 32
    ensures var high, low := 8 * red + green / 8, 32 * (green % 8) + blue;
      && high - high % 8 == 8 * red && 32 * (high % 8) + 4 * (low / 32) == 4 * green && low % 32 == blue
  {
    assert (8 * red + green / 8) % 8 == green / 8;
  }

  lemma FivePow2()
    ensures Pow2(5) == 32
  {
    assert Pow2(2) == 4 && Pow2(4) == 16;
  }

  lemma Fields(high: byte, low: byte)
    ensures var c := Unpack565(high, low);
      c.r == high - high % 8 && c.g == 32 * (high % 8) + 4 * (low / 32) && c.b == 8 * (low % 32)
  {
    var a, b, c, d := high / 8, high % 8, low / 32, low % 32;
    Top5(a, 256 * b + 32 * c + d);
    Low5(64 * a + 8 * b + c, d);
    Low6(a, 8 * b + c);
  }

  lemma Top5(q: nat, r: nat)
    requires r < 2048
    ensures (2048 * q + r) / 2048 == q
  {
  }

  lemma Low5(q: nat, r: nat)
    requires r < 32
    ensures (32 * q + r) / 32 == q && (32 * q + r) % 32 == r
  {
  }

  lemma Low6(q: nat, r: nat)
    requires r < 64
    ensures (64 * q + r) % 64 == r
  {
  }

  lemma SmallShifts(v: nat)
    ensures Shl(v, 3) == 8 * v && Shl(v, 5) == 32 * v && Shr(8 * v, 3) == v
  {
    assert Shl(v, 1) == 2 * v && Shl(v, 2) == 4 * v && Shl(v, 3) == 8 * v && Shl(v, 4) == 16 * v;
    assert Shr(8 * v, 3) == Shr(4 * v, 2) == Shr(2 * v, 1) == Shr(v, 0);
  }

  /** Line number line of the frame. */
  function RawLine(src: seq<byte>, format: Format, width: nat, line: nat): (raw: seq<byte>)
    requires LineLen(format, width) * line + LineLen(format, width) <= |src|
    ensures |raw| == LineLen(format, width)
  {
    var l := LineLen(format, width);
    src[l * line..l * line + l]
  }

  /** The first n lines of the frame, one after another. */
  function RawLines(src: seq<byte>, format: Format, width: nat, n: nat): seq<byte>
    requires LineLen(format, width) * n <= |src|
  {
    if n == 0 then []
    else
      LastLine(LineLen(format, width), n);
      RawLines(src, format, width, n - 1) + RawLine(src, format, width, n - 1)
  }

  lemma LastLine(l: nat, n: nat)
    requires n > 0
    ensures l * (n - 1) + l == l * n
  {
  }

  lemma LineJoins(src: seq<byte>, format: Format, width: nat, line: nat)
    requires LineLen(format, width) * line + LineLen(format, width) <= |src|
    ensures var at := LineLen(format, width) * line;
      src[..at] + RawLine(src, format, width, line) == src[..at + LineLen(format, width)]
  {
    hide LineLen;
  }

  /** The lines, one after another, are the frame. */
  lemma {:induction false} LinesAreFrame(src: seq<byte>, format: Format, width: nat, n: nat)
    requires LineLen(format, width) * n <= |src|
    ensures RawLines(src, format, width, n) == src[..LineLen(format, width) * n]
  {
    hide LineLen, RawLine;
    var l := LineLen(format, width);
    if n > 0 {
      LastLine(l, n);
      LinesAreFrame(src, format, width, n - 1);
      LineJoins(src, format, width, n - 1);
    } else {
      assert l * 0 == 0 && src[..0] == [];
    }
  }

  /** convert_line_format for line number line of the frame src. */
  method ConvertLine(src: seq<byte>, format: Format, toRgb: ToRgb, dst: array<byte>, width: nat, line: nat)
    requires WholePairs(format, width) && dst.Length == width * Channels(format)
    requires LineLen(format, width) * line + LineLen(format, width) <= |src|
    modifies dst
    ensures dst[..] == Converted(format, toRgb, RawLine(src, format, width, line), width)
  {
    var raw := RawLine(src, format, width, line);
    hide RawLine, Converted, IsConverted;
    match format
    case Grayscale =>
      CopyGrey(raw, toRgb, dst, width);
    case Rgb888 =>
      ConvertRgb888(raw, toRgb, dst, width);
    case Rgb565 =>
      ConvertRgb565(raw, toRgb, dst, width);
    case Yuv422 =>
      ConvertYuv(raw, toRgb, dst, width);
    ConvertedPixels(format, toRgb, raw, width);
    ConvertedOnce(format, toRgb, raw, width, dst[..], Converted(format, toRgb, raw, width));
  }

  /** Scanlines for the lines of the frame. */
  function Scanlines(src: seq<byte>, format: Format, toRgb: ToRgb, width: nat, height: nat): (lines: seq<seq<byte>>)
    requires WholePairs(format, width) && LineLen(format, width) * height <= |src|
    ensures |lines| == height && forall y :: 0 <= y < height ==> |lines[y]| == width * Channels(format)
    ensures forall y: nat :: y < height ==> LineLen(format, width) * y + LineLen(format, width) <= |src|
    ensures forall y: nat :: y < height ==> lines[y] == Converted(format, toRgb, RawLine(src, format, width, y), width)
  {
    LinesFit(LineLen(format, width), height);
    seq(height, y requires 0 <= y < height =>
      assert LineLen(format, width) * y + LineLen(format, width) <= LineLen(format, width) * height;
      Converted(format, toRgb, RawLine(src, format, width, y), width))
  }

  lemma LinesFit(l: nat, height: nat)
    ensures forall y: nat :: y < height ==> l * y + l <= l * height
  {
    forall y: nat | y < height
      ensures l * y + l <= l * height
    {
      LineFits(l, y, height);
    }
  }

  lemma {:induction false} LineFits(l: nat, y: nat, height: nat)
    requires y < height
    ensures l * y + l <= l * height
    decreases height
  {
    LastLine(l, height);
    if y < height - 1 {
      LineFits(l, y, height - 1);
    }
  }

  method CopyGrey(raw: seq<byte>, ghost toRgb: ToRgb, dst: array<byte>, width: nat)
    requires |raw| == width == dst.Length
    modifies dst
    ensures IsConverted(Grayscale, toRgb, raw, width, dst[..])
  {
    forall k | 0 <= k < width {
      dst[k] := raw[k];
    }
  }

  method ConvertRgb888(raw: seq<byte>, ghost toRgb: ToRgb, dst: array<byte>, width: nat)
    requires |raw| == 3 * width == dst.Length
    modifies dst
    ensures IsConverted(Rgb888, toRgb, raw, width, dst[..])
  {
    var o := 0;
    for x := 0 to width
      invariant o == 3 * x
      invariant forall k: nat :: k < x ==> PixelAt(dst[..], k, ColourAt(Rgb888, toRgb, raw, width, k))
    {
      dst[o], dst[o + 1], dst[o + 2] := raw[3 * x + 2], raw[3 * x + 1], raw[3 * x];
      o := o + 3;
    }
  }

  method ConvertRgb565(raw: seq<byte>, ghost toRgb: ToRgb, dst: array<byte>, width: nat)
    requires |raw| == 2 * width && 3 * width == dst.Length
    modifies dst
    ensures IsConverted(Rgb565, toRgb, raw, width, dst[..])
  {
    hide Unpack565, B.Or, Shl, Shr;
    var o := 0;
    for x := 0 to width
      invariant o == 3 * x
      invariant forall k: nat :: k < x ==> PixelAt(dst[..], k, ColourAt(Rgb565, toRgb, raw, width, k))
    {
      var high, low := raw[2 * x], raw[2 * x + 1];
      FieldsOf565(high, low);
      dst[o] := high - high % 8;
      dst[o + 1] := B.Or(Shl(high % 8, 5), Shr(low - low % 32, 3));
      dst[o + 2] := Shl(low % 32, 3);
      o := o + 3;
    }
  }

  method ConvertYuv(raw: seq<byte>, toRgb: ToRgb, dst: array<byte>, width: nat)
    requires |raw| == 2 * width && 3 * width == dst.Length && width % 2 == 0
    modifies dst
    ensures IsConverted(Yuv422, toRgb, raw, width, dst[..])
  {
    var o, i := 0, 0;
    ghost var n := 0;
    hide ColourAt;
    while i < 2 * width
      invariant i == 4 * n <= 2 * width && o == 6 * n
      invariant forall k: nat :: k < 2 * n ==> PixelAt(dst[..], k, ColourAt(Yuv422, toRgb, raw, width, k))
      decreases 2 * width - i
    {
      ConvertPair(raw, toRgb, dst, width, i, o, n);
      o, i, n := o + 6, i + 4, n + 1;
    }
  }

  /** The two pixels that share raw[i + 1] and raw[i + 3]. */
  method ConvertPair(raw: seq<byte>, toRgb: ToRgb, dst: array<byte>, width: nat, i: nat, o: nat, ghost n: nat)
    requires |raw| == 2 * width && 3 * width == dst.Length && width % 2 == 0
    requires i == 4 * n < 2 * width && o == 6 * n
    requires forall k: nat :: k < 2 * n ==> PixelAt(dst[..], k, ColourAt(Yuv422, toRgb, raw, width, k))
    modifies dst
    ensures forall k: nat :: k < 2 * n + 2 ==> PixelAt(dst[..], k, ColourAt(Yuv422, toRgb, raw, width, k))
  {
    hide ColourAt;
    PairColours(raw, toRgb, width, n);
    var first := toRgb(raw[i], raw[i + 1], raw[i + 3]);
    dst[o], dst[o + 1], dst[o + 2] := first.r, first.g, first.b;
    var second := toRgb(raw[i + 2], raw[i + 1], raw[i + 3]);
    dst[o + 3], dst[o + 4], dst[o + 5] := second.r, second.g, second.b;
    assert PixelAt(dst[..], 2 * n, first) && PixelAt(dst[..], 2 * n + 1, second);
    forall k: nat | k < 2 * n
      ensures PixelAt(dst[..], k, ColourAt(Yuv422, toRgb, raw, width, k))
    {
      assert old(PixelAt(dst[..], k, ColourAt(Yuv422, toRgb, raw, width, k)));
    }
  }

  /** Four bytes Y, U, Y, V are two pixels that share U and V. */
  lemma SharedColours(toRgb: ToRgb, raw: seq<byte>, width: nat, n: nat, y0: byte, u: byte, y1: byte, v: byte)
    requires |raw| == 2 * width && width % 2 == 0 && 2 * n + 1 < width
    requires raw[4 * n..4 * n + 4] == [y0, u, y1, v]
    ensures ColourAt(Yuv422, toRgb, raw, width, 2 * n) == toRgb(y0, u, v)
    ensures ColourAt(Yuv422, toRgb, raw, width, 2 * n + 1) == toRgb(y1, u, v)
  {
    var four := raw[4 * n..4 * n + 4];
    PairColours(raw, toRgb, width, n);
    assert raw[4 * n] == four[0] && raw[4 * n + 1] == four[1] && raw[4 * n + 2] == four[2] && raw[4 * n + 3] == four[3];
  }

  lemma PairColours(raw: seq<byte>, toRgb: ToRgb, width: nat, n: nat)
    requires |raw| == 2 * width && width % 2 == 0 && 2 * n + 1 < width
    ensures ColourAt(Yuv422, toRgb, raw, width, 2 * n) == toRgb(raw[4 * n], raw[4 * n + 1], raw[4 * n + 3])
    ensures ColourAt(Yuv422, toRgb, raw, width, 2 * n + 1) == toRgb(raw[4 * n + 2], raw[4 * n + 1], raw[4 * n + 3])
  {
  }
}
