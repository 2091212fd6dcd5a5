/** Slot bitmaps as the bytes the cluster keeps and sends. */
module SlotBitmap {

  type Bitmap = seq<bv8>

  function Mask(bit: nat): bv8
    requires bit < 8
  {
    (1 as bv8) << bit
  }

  predicate TestBit(b: Bitmap, pos: nat)
    requires pos < 8 * |b|
  {
    b[pos / 8] & Mask(pos % 8) != 0
  }

  function SetBit(b: Bitmap, pos: nat): Bitmap
    requires pos < 8 * |b|
  {
    b[pos / 8 := b[pos / 8] | Mask(pos % 8)]
  }

  function ClearBit(b: Bitmap, pos: nat): Bitmap
    requires pos < 8 * |b|
  {
    b[pos / 8 := b[pos / 8] & !Mask(pos % 8)]
  }

  lemma MaskValue(i: nat)
    requires i < 8
    ensures Mask(i) == if i == 0 then 1 else if i == 1 then 2 else if i == 2 then 4 else if i == 3 then 8
                       else if i == 4 then 16 else if i == 5 then 32 else if i == 6 then 64 else 128
  {
  }

  lemma OrMask(x: bv8, i: nat, j: nat)
    requires i < 8 && j < 8
    ensures (x | Mask(i)) & Mask(j) != 0 <==> i == j || x & Mask(j) != 0
  {
    MaskValue(i);
    MaskValue(j);
  }

  lemma AndNotMask(x: bv8, i: nat, j: nat)
    requires i < 8 && j < 8
    ensures (x & !Mask(i)) & Mask(j) != 0 <==> i != j && x & Mask(j) != 0
  {
    MaskValue(i);
    MaskValue(j);
  }

  /** Setting one bit sets that bit and no other. */
  lemma SetBitTest(b: Bitmap, p: nat, q: nat)
    requires p < 8 * |b| && q < 8 * |b|
    ensures TestBit(SetBit(b, p), q) <==> p == q || TestBit(b, q)
  {
    OrMask(b[p / 8], p % 8, q % 8);
  }

  /** Clearing one bit clears that bit and no other. */
  lemma ClearBitTest(b: Bitmap, p: nat, q: nat)
    requires p < 8 * |b| && q < 8 * |b|
    ensures TestBit(ClearBit(b, p), q) <==> p != q && TestBit(b, q)
  {
    AndNotMask(b[p / 8], p % 8, q % 8);
  }

  lemma ByteExt(x: bv8, y: bv8)
    requires forall k: nat :: k < 8 ==> (x & Mask(k) != 0 <==> y & Mask(k) != 0)
    ensures x == y
  {
    MaskValue(0); MaskValue(1); MaskValue(2); MaskValue(3);
    MaskValue(4); MaskValue(5); MaskValue(6); MaskValue(7);
  }

  /** A bitmap is determined by its bits. */
  lemma BitmapExt(a: Bitmap, b: Bitmap)
    requires |a| == |b| && forall j: nat :: j < 8 * |a| ==> (TestBit(a, j) <==> TestBit(b, j))
    ensures a == b
  {
    forall i | 0 <= i < |a| ensures a[i] == b[i] {
      forall k: nat | k < 8 ensures a[i] & Mask(k) != 0 <==> b[i] & Mask(k) != 0 {
        assert TestBit(a, 8 * i + k) <==> TestBit(b, 8 * i + k);
        assert (8 * i + k) / 8 == i && (8 * i + k) % 8 == k;
      }
      ByteExt(a[i], b[i]);
    }
  }

  function BlankMap(n: nat): Bitmap {
    seq(n, _ => 0)
  }

  lemma BlankBit(n: nat, j: nat)
    requires j < 8 * n
    ensures !TestBit(BlankMap(n), j)
  {
    MaskValue(j % 8);
  }
}
