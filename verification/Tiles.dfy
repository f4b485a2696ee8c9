/** Segments as tiles: together they cover the obtained pages, and no two overlap. */
module Tiles {
  import opened Units

  type SegmentPtr = nat
  type Blocks = map<SegmentPtr, nat>  // start and size

  ghost predicate Aligned(n: nat) {
    n % UNIT == 0
  }

  ghost predicate PageStart(n: nat) {
    n % PAGE_SIZE == 0
  }

  /** The byte at address a lies in one of the pages. */
  ghost predicate InPages(a: nat, pages: set<nat>) {
    a - a % PAGE_SIZE in pages
  }

  ghost predicate InBlock(a: nat, b: Blocks, p: SegmentPtr) {
    p in b && p <= a < p + b[p]
  }

  ghost predicate Covered(a: nat, b: Blocks) {
    exists p :: InBlock(a, b, p)
  }

  ghost predicate WellCut(b: Blocks) {
    forall p :: p in b ==> Aligned(p) && Aligned(b[p]) && b[p] > 0
  }

  ghost predicate Disjoint(b: Blocks) {
    forall p, q :: p in b && q in b && p < q ==> p + b[p] <= q
  }

  ghost predicate Covers(b: Blocks, pages: set<nat>) {
    && (forall a: nat :: InPages(a, pages) <==> Covered(a, b))
    && (forall page :: page in pages ==> PageStart(page))
  }

  /** Blocks are 32-byte aligned, not empty, disjoint, and together exactly the pages. */
  ghost predicate Tiled(b: Blocks, pages: set<nat>) {
    WellCut(b) && Disjoint(b) && Covers(b, pages)
  }

  lemma AlignedSums(m: nat, n: nat)
    requires Aligned(m) && Aligned(n)
    ensures Aligned(m + n) && (m >= n ==> Aligned(m - n))
  {
  }

  ghost function Split(b: Blocks, p: SegmentPtr, n: nat): Blocks
    requires p in b && n <= b[p]
  {
    b[p := n][p + n := b[p] - n]
  }

  lemma SplitTiles(b: Blocks, pages: set<nat>, p: SegmentPtr, n: nat)
    requires Tiled(b, pages) && p in b && 0 < n < b[p] && Aligned(n)
    ensures p + n !in b && Tiled(Split(b, p, n), pages)
  {
    hide InPages, Aligned, Covered;
    AlignedSums(p, n);
    AlignedSums(b[p], n);
    var b' := Split(b, p, n);
    forall a: nat
      ensures Covered(a, b') <==> Covered(a, b)
    {
      SplitCovers(b, p, n, a);
    }
  }

  lemma SplitCovers(b: Blocks, p: SegmentPtr, n: nat, a: nat)
    requires p in b && 0 < n < b[p] && p + n !in b
    ensures Covered(a, Split(b, p, n)) <==> Covered(a, b)
  {
    var b' := Split(b, p, n);
    if Covered(a, b) {
      var q: nat :| InBlock(a, b, q);
      assert InBlock(a, b', if q != p then q else if a < p + n then p else p + n);
    }
    if Covered(a, b') {
      var q: nat :| InBlock(a, b', q);
      assert InBlock(a, b, if q == p + n then p else q);
    }
  }

  ghost function Merge(b: Blocks, p: SegmentPtr, q: SegmentPtr): Blocks
    requires p in b && q in b
  {
    (b - {q})[p := b[p] + b[q]]
  }

  lemma MergeTiles(b: Blocks, pages: set<nat>, p: SegmentPtr, q: SegmentPtr)
    requires Tiled(b, pages) && p in b && q in b && p + b[p] == q
    ensures Tiled(Merge(b, p, q), pages)
  {
    hide InPages, Aligned, Covered;
    AlignedSums(b[p], b[q]);
    var b' := Merge(b, p, q);
    forall a: nat
      ensures Covered(a, b') <==> Covered(a, b)
    {
      MergeCovers(b, p, q, a);
    }
  }

  lemma MergeCovers(b: Blocks, p: SegmentPtr, q: SegmentPtr, a: nat)
    requires p in b && q in b && p + b[p] == q && p != q
    ensures Covered(a, Merge(b, p, q)) <==> Covered(a, b)
  {
    var b' := Merge(b, p, q);
    if Covered(a, b) {
      var r: nat :| InBlock(a, b, r);
      assert InBlock(a, b', if r == q then p else r);
    }
    if Covered(a, b') {
      var r: nat :| InBlock(a, b', r);
      assert InBlock(a, b, if r != p then r else if a < q then p else q);
    }
  }

  /** n pages from `start` on. */
  ghost function Run(start: nat, n: nat): set<nat> {
    set i | 0 <= i < n :: start + i * PAGE_SIZE
  }

  lemma RunPages(start: nat, n: nat, a: nat)
    requires PageStart(start)
    ensures InPages(a, Run(start, n)) <==> start <= a < start + n * PAGE_SIZE
  {
    if start <= a < start + n * PAGE_SIZE {
      var i := (a - start) / PAGE_SIZE;
      assert a - a % PAGE_SIZE == start + i * PAGE_SIZE && 0 <= i < n;
    }
  }

  lemma RunStarts(start: nat, n: nat)
    requires PageStart(start)
    ensures forall page :: page in Run(start, n) ==>
          PageStart(page) && start <= page && page + PAGE_SIZE <= start + n * PAGE_SIZE
    ensures Aligned(start) && Aligned(n * PAGE_SIZE)
  {
    forall page | page in Run(start, n)
      ensures PageStart(page) && start <= page && page + PAGE_SIZE <= start + n * PAGE_SIZE
    {
      var i :| 0 <= i < n && page == start + i * PAGE_SIZE;
    }
    PagesAligned(n);
    PagesAligned(start / PAGE_SIZE);
  }

  lemma {:induction false} PagesAligned(n: nat)
    ensures Aligned(n * PAGE_SIZE)
  {
    if n > 0 {
      PagesAligned(n - 1);
      assert n * PAGE_SIZE == (n - 1) * PAGE_SIZE + PAGE_SIZE;
    }
  }

  /** New pages form one new block. */
  lemma RunTiles(b: Blocks, pages: set<nat>, start: nat, n: nat)
    requires Tiled(b, pages) && n > 0 && PageStart(start)
    requires forall page :: page in pages ==> page + PAGE_SIZE <= start
    ensures start !in b && Tiled(b[start := n * PAGE_SIZE], pages + Run(start, n))
  {
    hide InPages, Aligned, Covered, PageStart, Run;
    RunStarts(start, n);
    forall p | p in b
      ensures p + b[p] <= start
    {
      BlockBelow(b, pages, p, start);
    }
    assert start !in b;
    forall a: nat
      ensures InPages(a, pages + Run(start, n)) <==> Covered(a, b[start := n * PAGE_SIZE])
    {
      RunPages(start, n, a);
      EitherPages(a, pages, Run(start, n));
      RunCovers(b, start, n * PAGE_SIZE, a);
    }
  }

  lemma EitherPages(a: nat, pages: set<nat>, more: set<nat>)
    ensures InPages(a, pages + more) <==> InPages(a, pages) || InPages(a, more)
  {
  }

  lemma RunCovers(b: Blocks, start: nat, size: nat, a: nat)
    requires start !in b
    ensures Covered(a, b[start := size]) <==> Covered(a, b) || start <= a < start + size
  {
    var b' := b[start := size];
    if Covered(a, b) {
      var p: nat :| InBlock(a, b, p);
      assert InBlock(a, b', p);
    }
    if start <= a < start + size {
      assert InBlock(a, b', start);
    }
    if Covered(a, b') {
      var p: nat :| InBlock(a, b', p);
      assert p != start ==> InBlock(a, b, p);
    }
  }

  lemma BlockBelow(b: Blocks, pages: set<nat>, p: SegmentPtr, limit: nat)
    requires Tiled(b, pages) && p in b && forall page :: page in pages ==> page + PAGE_SIZE <= limit
    ensures p + b[p] <= limit
  {
    hide Aligned, PageStart;
    var a := p + b[p] - 1;
    assert InBlock(a, b, p);
    assert Covered(a, b);
    assert InPages(a, pages);
  }
}
