/** Size classes of the boundary-tag allocator: rounding a request to a chunk
    size and mapping a chunk size to one of the 64 bins (64-bit size_t). */
module SizeClasses {

  const SIZE_ALIGN: nat := 32
  const OVERHEAD: nat := 16
  const MMAP_THRESHOLD: nat := 0x1c00 * SIZE_ALIGN
  const DONTCARE: nat := 16
  const PAGE_SIZE: nat := 4096
  const SIZE_MAX: nat := 0xffff_ffff_ffff_ffff
  const PTRDIFF_MAX: nat := 0x7fff_ffff_ffff_ffff
  const BIN_COUNT: nat := 64

  const ROW_0: seq<nat> := [                32,33,34,35,36,36,37,37,38,38,39,39]
  const ROW_1: seq<nat> := [40,40,40,40,41,41,41,41,42,42,42,42,43,43,43,43]
  const ROW_2: seq<nat> := [44,44,44,44,44,44,44,44,45,45,45,45,45,45,45,45]
  const ROW_3: seq<nat> := [46,46,46,46,46,46,46,46,47,47,47,47,47,47,47,47]
  const BIN_TAB: seq<nat> := ROW_0 + ROW_1 + ROW_2 + ROW_3

  /** The table in closed form: runs of one, two, four and eight equal entries. */
  function Run(k: nat): nat {
    if k < 4 then 32 + k else if k < 12 then 34 + k / 2 else if k < 28 then 37 + k / 4 else 40 + (k + 4) / 8
  }

  lemma RowsAt(k: nat)
    requires k < 28
    ensures (ROW_0 + ROW_1)[k] == Run(k)
  {
    if k < 12 {
      assert ROW_0[k] == Run(k);
    } else {
      assert ROW_1[k - 12] == Run(k);
    }
  }

  lemma BinTabAt(k: nat)
    requires k < 60
    ensures |BIN_TAB| == 60 && BIN_TAB[k] == Run(k)
  {
    if k < 28 {
      RowsAt(k);
    } else if k < 44 {
      assert ROW_2[k - 28] == Run(k);
    } else {
      assert ROW_3[k - 44] == Run(k);
    }
  }

  /** The rounded chunk size for a request, None where the C code fails with ENOMEM. */
  datatype Adjusted = TooBig | Adjusted(size: nat)

  function AdjustSize(n: nat): Adjusted
    requires n <= SIZE_MAX
  {
    if n == 0 then Adjusted(SIZE_ALIGN)
    else if n - 1 > PTRDIFF_MAX - SIZE_ALIGN - PAGE_SIZE then TooBig
    else Adjusted((n + OVERHEAD + SIZE_ALIGN - 1) / SIZE_ALIGN * SIZE_ALIGN)
  }

  /** A rounded size is a positive multiple of the alignment, is the least one with room for
      the request and its header, and is defined exactly below the ptrdiff_t limit. */
  lemma AdjustSizeIsLeastFit(n: nat)
    requires n <= SIZE_MAX
    ensures AdjustSize(n).Adjusted? <==> n <= 0x7fff_ffff_ffff_ffff - 32 - 4096 + 1
    ensures AdjustSize(n).Adjusted? ==>
              var s := AdjustSize(n).size;
              && s % 32 == 0 && n + 16 <= s && (forall t: nat :: t % 32 == 0 && n + 16 <= t ==> s <= t)
              && (s <= MMAP_THRESHOLD <==> n <= 0x1c00 * 32 - 16)
  {
  }

  /** x / SIZE_ALIGN - 1 in size_t arithmetic: a size below the alignment wraps around. */
  function Units(size: nat): nat {
    if size < SIZE_ALIGN then SIZE_MAX else size / SIZE_ALIGN - 1
  }

  /** The bin for a size given in units, with the table in closed form. */
  function BinOf(x: nat): (i: nat)
    ensures i < BIN_COUNT
  {
    if x <= 32 then x
    else if x < 512 then Run(x / 8 - 4)
    else if x > 0x1c00 then 63
    else Run(x / 128 - 4) + 16
  }

  function BinIndex(size: nat): (i: nat)
    ensures i < BIN_COUNT
  {
    BinOf(Units(size))
  }

  function BinIndexUp(size: nat): (i: nat)
    requires SIZE_ALIGN <= size <= MMAP_THRESHOLD
    ensures i < BIN_COUNT
  {
    var x := Units(size);
    if x <= 32 then x else BinOf(x - 1) + 1
  }

  /** Both functions are the table lookups of the C code. */
  lemma BinIndexByTable(size: nat)
    ensures var x := if size < 32 then 0xffff_ffff_ffff_ffff else size / 32 - 1;
            && |BIN_TAB| == 60
            && BinIndex(size) ==
               (if x <= 32 then x
                else if x < 512 then BIN_TAB[x / 8 - 4]
                else if x > 0x1c00 then 63
                else BIN_TAB[x / 128 - 4] + 16)
            && (32 <= size <= 0x1c00 * 32 ==>
                  BinIndexUp(size) ==
                  if x <= 32 then x
                  else if x - 1 < 512 then BIN_TAB[(x - 1) / 8 - 4] + 1
                  else BIN_TAB[(x - 1) / 128 - 4] + 17)
  {
    var x := Units(size);
    BinTabAt(0);
    if 32 < x < 512 { BinTabAt(x / 8 - 4); }
    if 512 <= x <= 0x1c00 { BinTabAt(x / 128 - 4); }
    if 32 < x <= 512 { BinTabAt((x - 1) / 8 - 4); }
    if 512 < x <= 0x1c00 { BinTabAt((x - 1) / 128 - 4); }
  }

  lemma BinOfStep(x: nat)
    ensures BinOf(x) <= BinOf(x + 1)
  {
  }

  lemma {:induction false} BinOfMonotone(x: nat, y: nat)
    requires x <= y
    ensures BinOf(x) <= BinOf(y)
    decreases y - x
  {
    if x < y {
      BinOfMonotone(x, y - 1);
      BinOfStep(y - 1);
    }
  }

  /** Larger chunks never fall into smaller bins. */
  lemma BinIndexMonotone(s: nat, t: nat)
    requires SIZE_ALIGN <= s <= t
    ensures BinIndex(s) <= BinIndex(t)
  {
    BinOfMonotone(Units(s), Units(t));
  }

  /** Every chunk found in a bin at or above BinIndexUp(n) has room for n. */
  lemma BinIndexUpFits(n: nat, s: nat)
    requires SIZE_ALIGN <= n <= MMAP_THRESHOLD && n % SIZE_ALIGN == 0
    requires SIZE_ALIGN <= s && s % SIZE_ALIGN == 0
    requires BinIndexUp(n) <= BinIndex(s)
    ensures n <= s
  {
    if s < n {
      BinOfMonotone(Units(s), Units(n) - 1);
    }
  }

  /** The guard under which a free chunk of size n1 in bin j is split in place for a request
      of size n with ideal bin i, without leaving its bin. */
  ghost predicate CanPretrim(n1: nat, n: nat, i: nat, j: nat)
    requires n <= n1
  {
    40 <= j && (i + 3 <= j || (j == 63 && 0x1c00 * 32 < n1 - n)) && BinIndex(n1 - n) == j
  }

  /** A split in place leaves a non-empty remainder, which still belongs in the same bin. */
  lemma PretrimRemainder(n1: nat, n: nat, i: nat, j: nat)
    requires SIZE_ALIGN <= n <= MMAP_THRESHOLD && n % SIZE_ALIGN == 0 && i == BinIndexUp(n)
    requires SIZE_ALIGN <= n1 && n1 % SIZE_ALIGN == 0 && j == BinIndex(n1) && i <= j
    ensures n <= n1
    ensures CanPretrim(n1, n, i, j) ==> SIZE_ALIGN <= n1 - n && BinIndex(n1 - n) == BinIndex(n1)
  {
    BinIndexUpFits(n, n1);
  }
}
