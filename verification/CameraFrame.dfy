/** Sizes of the camera's frame and DMA buffers for JPEG, and where a finished frame ends
    (camera.c). */
module CameraFrame {
  import opened Bits

  /** The search for the end of a frame reads up to three bytes past its last byte. */
  const LOOKAHEAD := 3

  // ----- buffer sizes

  /** How far the frame size is bounded by the JPEG quality parameter. */
  function RatioBound(quality: int): (r: nat)
    ensures r in {4, 10, 16}
  {
    if quality > 10 then 16 else if quality > 5 then 10 else 4
  }

  function FrameSize(width: nat, height: nat, quality: int): nat {
    width * height * 2 / RatioBound(quality)
  }

  /** dma_desc_init: a line of eight bytes a pixel is halved until it fits a DMA buffer. */
  method SplitLine(width: nat) returns (bufSize: nat, perLine: nat)
    requires width % 4 == 0
    ensures perLine > 0 && bufSize < 4096
    ensures bufSize * perLine <= 8 * width < (bufSize + 1) * perLine
    ensures perLine == 1 || bufSize >= 2048
  {
    bufSize, perLine := 8 * width, 1;
    while bufSize >= 4096
      invariant perLine > 0 && (perLine == 1 || bufSize >= 2048)
      invariant bufSize * perLine <= 8 * width < (bufSize + 1) * perLine
    {
      HalveKeeps(bufSize, perLine, 8 * width);
      bufSize := bufSize / 2;
      perLine := perLine * 2;
    }
  }

  lemma HalveKeeps(size: nat, count: nat, total: nat)
    requires size * count <= total < (size + 1) * count
    ensures size / 2 * (count * 2) <= total < (size / 2 + 1) * (count * 2)
  {
    var h := size / 2;
    assert h * (count * 2) == (h * 2) * count;
    assert (h + 1) * (count * 2) == (h * 2 + 2) * count;
    assert (h * 2) * count <= size * count by {
      MulMono(h * 2, size, count);
    }
    assert (size + 1) * count <= (h * 2 + 2) * count by {
      MulMono(size + 1, h * 2 + 2, count);
    }
  }

  lemma MulMono(a: nat, b: nat, c: nat)
    requires a <= b
    ensures a * c <= b * c
  {
  }

  /** Bytes of the frame one DMA buffer stands for, and bytes the JPEG filter writes from it. */
  function BufLen(width: nat, perLine: nat): nat
    requires perLine > 0
  {
    width * 2 / perLine
  }

  function FilterLen(length: nat): nat {
    length / 4 / 4 * 4
  }

  /** Of a DMA buffer cut as SplitLine does the filter writes its place in the frame, up to a multiple
      of four bytes: all of it if and only if that place is such a multiple. */
  lemma FilterExactIff(width: nat, bufSize: nat, perLine: nat)
    requires perLine > 0 && bufSize * perLine <= 8 * width < (bufSize + 1) * perLine
    ensures FilterLen(bufSize) == BufLen(width, perLine) - BufLen(width, perLine) % 4
    ensures FilterLen(bufSize) == BufLen(width, perLine) <==> BufLen(width, perLine) % 4 == 0
  {
    hide BufLen;
    ShareBetween(width, bufSize, perLine, bufSize / 4 / 4);
    Multiple(BufLen(width, perLine), bufSize / 4 / 4);
  }

  lemma Multiple(share: nat, n: nat)
    requires 4 * n <= share < 4 * n + 4
    ensures 4 * n == share - share % 4
  {
  }

  lemma ShareBetween(width: nat, bufSize: nat, perLine: nat, n: nat)
    requires perLine > 0 && bufSize * perLine <= 8 * width < (bufSize + 1) * perLine && 16 * n <= bufSize < 16 * n + 16
    ensures 4 * n <= BufLen(width, perLine) < 4 * n + 4
  {
    QuarterBounds(width * 2, bufSize, perLine, 4 * n);
    QuotientBetween(width * 2, perLine, 4 * n, 4 * n + 4);
  }

  lemma QuarterBounds(quarter: nat, size: nat, count: nat, low: nat)
    requires size * count <= 4 * quarter < (size + 1) * count && 4 * low <= size < 4 * low + 16
    ensures low * count <= quarter < (low + 4) * count
  {
    MulMono(4 * low, size, count);
    MulMono(size + 1, 4 * low + 16, count);
    FourTimes(low, count);
    FourTimes(low + 4, count);
  }

  lemma FourTimes(a: nat, b: nat)
    ensures (4 * a) * b == 4 * (a * b)
  {
  }

  lemma QuotientBetween(total: nat, count: nat, low: nat, high: nat)
    requires count > 0 && low * count <= total < high * count
    ensures low <= total / count < high
  {
    var q := total / count;
    assert total == q * count + total % count && (q + 1) * count == q * count + count;
    if q >= high {
      MulMono(high, q, count);
    }
    if q < low {
      MulMono(q + 1, low, count);
    }
  }

  /** The filter never writes more than its place in the frame, and a frame holds at least one buffer. */
  lemma FilterFits(width: nat, height: nat, quality: int, bufSize: nat, perLine: nat)
    requires perLine > 0 && bufSize * perLine <= 8 * width < (bufSize + 1) * perLine && height >= 16
    ensures FilterLen(bufSize) <= BufLen(width, perLine) <= FrameSize(width, height, quality)
  {
    FilterExactIff(width, bufSize, perLine);
    assert width * 2 / perLine <= width * 2 by {
      DivShrinks(width * 2, perLine);
    }
    MulMono(16, height, width);
    assert width * height == height * width;
  }

  lemma DivShrinks(total: nat, count: nat)
    requires count > 0
    ensures total / count <= total
  {
    MulMono(1, count, total / count);
  }

  // ----- the end of a frame

  /** FF D9 00 00 at k. */
  predicate EndsAt(data: seq<byte>, k: nat)
    requires k + LOOKAHEAD < |data|
  {
    data[k] == 0xFF && data[k + 1] == 0xD9 && data[k + 2] == 0 && data[k + 3] == 0
  }

  /** The last k from 1 to top at which an end marker stands; 0 if there is none. */
  function LastEnd(data: seq<byte>, top: nat): (k: nat)
    requires top + LOOKAHEAD < |data|
    ensures k <= top
  {
    if top == 0 then 0 else if EndsAt(data, top) then top else LastEnd(data, top - 1)
  }

  lemma {:induction false} LastEndIs(data: seq<byte>, top: nat)
    requires top + LOOKAHEAD < |data|
    ensures LastEnd(data, top) > 0 ==> EndsAt(data, LastEnd(data, top))
    ensures forall k: nat :: LastEnd(data, top) < k <= top ==> !EndsAt(data, k)
  {
    if top > 0 && !EndsAt(data, top) {
      LastEndIs(data, top - 1);
    }
  }

  /** Length of a frame whose marker starts at k, moved off multiples of 512 and 100. */
  function Padded(len: nat): nat {
    var len := if len % 512 == 0 then len + 1 else len;
    if len % 100 == 0 then len + 1 else len
  }

  function TrimmedLen(data: seq<byte>, len: nat): (r: nat)
    requires 0 < len && len + LOOKAHEAD <= |data|
    ensures 0 < r <= len + 2
  {
    var k := LastEnd(data, len - 1);
    if k > 0 then Padded(k + 2) else len
  }

  /** A trimmed frame ends with its last end-of-image marker and at most one zero byte, and its length
      is a multiple of neither 512 nor 100; a frame without a marker keeps its length. */
  lemma TrimmedFrame(data: seq<byte>, len: nat)
    requires 0 < len && len + LOOKAHEAD <= |data|
    ensures (exists k :: 0 < k < len && EndsAt(data, k)) ==>
      exists k :: 0 < k < len && EndsAt(data, k) && IsTrim(data, len, k, TrimmedLen(data, len))
    ensures !(exists k :: 0 < k < len && EndsAt(data, k)) ==> TrimmedLen(data, len) == len
  {
    hide EndsAt, LastEnd;
    LastEndIs(data, len - 1);
    var k := LastEnd(data, len - 1);
    if k > 0 {
      EndZero(data, k);
      assert IsTrim(data, len, k, TrimmedLen(data, len));
    }
  }

  lemma EndZero(data: seq<byte>, k: nat)
    requires k + LOOKAHEAD < |data| && EndsAt(data, k)
    ensures data[k + 2] == 0
  {
  }

  ghost predicate IsTrim(data: seq<byte>, len: nat, k: nat, r: nat)
    requires k < len && len + LOOKAHEAD <= |data|
  {
    && (forall j: nat :: k < j < len ==> !EndsAt(data, j))
    && (r == k + 2 || (r == k + 3 && data[k + 2] == 0))
    && r % 512 != 0 && r % 100 != 0
  }

  /** The search of dma_finish_frame, walking back from the last byte. */
  method Trim(buf: array<byte>, len: nat) returns (r: nat)
    requires 0 < len && len + LOOKAHEAD <= buf.Length
    ensures r == TrimmedLen(buf[..], len)
  {
    hide EndsAt;
    r := len;
    var dptr := len - 1;
    while dptr > 0
      invariant dptr < len && r == len && LastEnd(buf[..], len - 1) == LastEnd(buf[..], dptr)
    {
      EndsInArray(buf, dptr);
      if buf[dptr] == 0xFF && buf[dptr + 1] == 0xD9 && buf[dptr + 2] == 0 && buf[dptr + 3] == 0 {
        r := dptr + 2;
        if r % 512 == 0 {
          r := r + 1;
        }
        if r % 100 == 0 {
          r := r + 1;
        }
        return;
      }
      dptr := dptr - 1;
    }
  }

  lemma EndsInArray(buf: array<byte>, k: nat)
    requires k + LOOKAHEAD < buf.Length
    ensures EndsAt(buf[..], k) <==> buf[k] == 0xFF && buf[k + 1] == 0xD9 && buf[k + 2] == 0 && buf[k + 3] == 0
  {
  }
}
