/** How the value log grows: nextSize in vlog/vlog.go. */
module Growth {

  const MB := 1024 * 1024

  /** The number of pages, as a power of two, by which a file of this size grows. */
  function GrowShift(size: nat): (pages: nat)
    ensures pages > 0
  {
    if size >= 100 * MB then 128
    else if size >= 10 * MB then 64
    else if size >= 1 * MB then 32
    else if size >= 200 * 1024 then 16
    else 8
  }

  function NextSize(size: int, page: nat): nat
    requires page > 0
  {
    if size < 0 then 0
    else (size / page / GrowShift(size) + 1) * GrowShift(size) * page
  }

  /** q is the number of whole blocks of d bytes in n bytes. */
  ghost predicate Blocks(n: int, d: int, q: int) {
    q * d <= n < q * d + d
  }

  lemma DivIsBlocks(n: nat, d: nat)
    requires d > 0
    ensures Blocks(n, d, n / d)
  {
  }

  lemma MulMonotone(a: int, b: int, c: nat)
    requires a <= b
    ensures a * c <= b * c
  {
    assert (b - a) * c >= 0;
  }

  /** Blocks of blocks of pages are blocks of bytes. */
  lemma BlocksNest(n: int, p: nat, pages: int, g: nat, q: int)
    requires Blocks(n, p, pages) && Blocks(pages, g, q)
    ensures Blocks(n, g * p, q)
  {
    MulMonotone(q * g, pages, p);
    MulMonotone(pages + 1, q * g + g, p);
    assert q * g * p == q * (g * p);
  }

  /** One block more than the whole blocks in n: strictly above, at most one block above, and least. */
  lemma BlocksAbove(n: int, d: nat, q: int, multiple: int)
    requires d > 0 && Blocks(n, d, q)
    ensures n < (q + 1) * d <= n + d
    ensures n < multiple * d ==> (q + 1) * d <= multiple * d
  {
    assert (q + 1) * d == q * d + d;
    if multiple <= q {
      MulMonotone(multiple, q, d);
    } else {
      MulMonotone(q + 1, multiple, d);
    }
  }

  lemma MulAssociative(a: int, f: int, g: int, p: int)
    ensures a * (f * g * p) == a * f * (g * p)
  {
  }

  lemma BlockOfPages(size: nat, page: nat, g: nat)
    requires page > 0 && g > 0
    ensures g * page > 0 && Blocks(size, g * page, size / page / g)
  {
    DivIsBlocks(size, page);
    DivIsBlocks(size / page, g);
    BlocksNest(size, page, size / page, g, size / page / g);
    MulMonotone(1, g, page);
  }

  /** The growth target is a whole number of blocks, one more than the size fills. */
  lemma NextSizeBlocks(size: nat, page: nat) returns (block: nat, q: nat)
    requires page > 0
    ensures block == GrowShift(size) * page > 0
    ensures Blocks(size, block, q) && NextSize(size, page) == (q + 1) * block
  {
    var g := GrowShift(size);
    BlockOfPages(size, page, g);
    block, q := g * page, size / page / g;
    MulAssociative(q + 1, 1, g, page);
  }

  /** Growth is strict, bounded by one block, and block aligned. */
  lemma NextSizeBounds(size: nat, page: nat)
    requires page > 0
    ensures size < NextSize(size, page) <= size + GrowShift(size) * page
    ensures exists blocks: nat :: NextSize(size, page) == blocks * (GrowShift(size) * page)
  {
    var block, q := NextSizeBlocks(size, page);
    BlocksAbove(size, block, q, q);
  }

  /** The smallest multiple of the block above the size. */
  ghost predicate NextBlock(n: nat, size: nat, block: nat) {
    exists q: nat :: Blocks(size, block, q) && n == (q + 1) * block
  }

  /** How large a file gets: blocks of 8 pages below 200 kB, and up to 128 pages from 100 MB on. */
  lemma NextSizeTable(size: nat, page: nat)
    requires page > 0
    ensures size < 204_800 ==> NextBlock(NextSize(size, page), size, 8 * page)
    ensures 204_800 <= size < 1_048_576 ==> NextBlock(NextSize(size, page), size, 16 * page)
    ensures 1_048_576 <= size < 10_485_760 ==> NextBlock(NextSize(size, page), size, 32 * page)
    ensures 10_485_760 <= size < 104_857_600 ==> NextBlock(NextSize(size, page), size, 64 * page)
    ensures 104_857_600 <= size ==> NextBlock(NextSize(size, page), size, 128 * page)
    ensures NextSize(0, page) == 8 * page
  {
    var block, q := NextSizeBlocks(size, page);
    assert NextBlock(NextSize(size, page), size, block);
  }

  lemma BlockRatio(a: nat, b: nat) returns (f: nat)
    requires a <= b
    ensures GrowShift(b) == f * GrowShift(a)
  {
    f := GrowShift(b) / GrowShift(a);
  }

  /** A larger log never asks for a smaller file, also across the block thresholds. */
  lemma NextSizeMonotone(a: nat, b: nat, page: nat)
    requires page > 0 && a <= b
    ensures NextSize(a, page) <= NextSize(b, page)
  {
    var small, q := NextSizeBlocks(a, page);
    var large, r := NextSizeBlocks(b, page);
    NextSizeBounds(b, page);
    var f := BlockRatio(a, b);
    MulAssociative(r + 1, f, GrowShift(a), page);
    BlocksAbove(a, small, q, (r + 1) * f);
  }
}
