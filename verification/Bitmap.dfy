/** Progress bitmaps: one bit for each packet, eight to a byte, least significant first. */
module Bitmap {
  /** MUPGRADE_PACKET_MAX_NUM and the bytes of a progress array. */
  const MAX_PACKETS := 4096
  const BITMAP_BYTES := 512

  type Bitmap = b: seq<bv8> | |b| == BITMAP_BYTES witness seq(BITMAP_BYTES, _ => 0)

  /** 1 << k for k < 8. */
  function Mask(k: nat): bv8
    requires k < 8
  {
    match k
    case 0 => 1 case 1 => 2 case 2 => 4 case 3 => 8
    case 4 => 16 case 5 => 32 case 6 => 64 case _ => 128
  }

  /** Each packet has a bit of its own in its byte, the first the least significant. */
  lemma MaskValue(k: nat)
    requires k < 8
    ensures k == 0 ==> Mask(k) == 1
    ensures k > 0 ==> Mask(k) == Mask(k - 1) << 1
  {
  }

  predicate Has(x: bv8, k: nat)
    requires k < 8
  {
    x & Mask(k) != 0
  }

  /** MUPGRADE_GET_BITS. */
  predicate Get(b: Bitmap, p: nat)
    requires p < MAX_PACKETS
  {
    Has(b[p / 8], p % 8)
  }

  function Filled(x: bv8): (b: Bitmap) {
    seq(BITMAP_BYTES, _ => x)
  }

  function Set(b: Bitmap, p: nat): Bitmap
    requires p < MAX_PACKETS
  {
    b[p / 8 := b[p / 8] | Mask(p % 8)]
  }

  function And(a: Bitmap, b: Bitmap): Bitmap {
    seq(BITMAP_BYTES, i requires 0 <= i < BITMAP_BYTES => a[i] & b[i])
  }

  lemma HasOr(x: bv8, j: nat, k: nat)
    requires j < 8 && k < 8
    ensures Has(x | Mask(k), j) <==> (j == k || Has(x, j))
  {
  }

  lemma HasAnd(x: bv8, y: bv8, j: nat)
    requires j < 8
    ensures Has(x & y, j) <==> (Has(x, j) && Has(y, j))
  {
  }

  /** Setting a bit changes that bit only. */
  lemma GetSet(b: Bitmap, p: nat, q: nat)
    requires p < MAX_PACKETS && q < MAX_PACKETS
    ensures Get(Set(b, p), q) <==> (p == q || Get(b, q))
  {
    hide Has, Mask;
    if p / 8 == q / 8 {
      HasOr(b[p / 8], q % 8, p % 8);
    }
  }

  lemma GetAnd(a: Bitmap, b: Bitmap, p: nat)
    requires p < MAX_PACKETS
    ensures Get(And(a, b), p) <==> (Get(a, p) && Get(b, p))
  {
    AndAt(a, b, p / 8);
    hide Has, And;
    HasAnd(a[p / 8], b[p / 8], p % 8);
  }

  lemma AndAt(a: Bitmap, b: Bitmap, i: nat)
    requires i < BITMAP_BYTES
    ensures And(a, b)[i] == a[i] & b[i]
  {
  }

  lemma GetFilled(p: nat)
    requires p < MAX_PACKETS
    ensures !Get(Filled(0), p) && Get(Filled(0xFF), p)
  {
  }

  /** A bitmap with a clear bit is not all 0xFF bytes. */
  lemma ClearBitShows(b: Bitmap, p: nat)
    requires p < MAX_PACKETS && !Get(b, p)
    ensures b[p / 8] != 0xFF
  {
  }

  /** The packets below n whose bit is clear, in order. */
  function Missing(b: Bitmap, n: nat): (ps: seq<nat>)
    requires n <= MAX_PACKETS
    ensures forall k :: 0 <= k < |ps| ==> ps[k] < n
  {
    if n == 0 then [] else Missing(b, n - 1) + (if Get(b, n - 1) then [] else [n - 1])
  }

  // ----- in place

  /** MUPGRADE_SET_BITS. */
  method SetBits(data: array<bv8>, p: nat)
    requires data.Length == BITMAP_BYTES && p < MAX_PACKETS
    modifies data
    ensures data[..] == Set(old(data[..]), p)
  {
    data[p / 8] := data[p / 8] | Mask(p % 8);
  }

  method Fill(data: array<bv8>, x: bv8)
    requires data.Length == BITMAP_BYTES
    modifies data
    ensures data[..] == Filled(x)
  {
    for i := 0 to BITMAP_BYTES
      invariant forall k :: 0 <= k < i ==> data[k] == x
    {
      data[i] := x;
    }
  }

  method AndInto(data: array<bv8>, other: Bitmap)
    requires data.Length == BITMAP_BYTES
    modifies data
    ensures data[..] == And(old(data[..]), other)
  {
    for i := 0 to BITMAP_BYTES
      invariant forall k :: 0 <= k < BITMAP_BYTES ==> data[k] == if k < i then old(data[k]) & other[k] else old(data[k])
    {
      data[i] := data[i] & other[i];
    }
  }
}
