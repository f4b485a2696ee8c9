/** The state of a segment allocator, and what its steps keep. */
module Arena {
  import opened Units
  import opened Tiles
  import opened FreeLists
  import opened PageLists

  const FIRST_UNSET := PAGE_SIZE * 2
  const AREA_SIZE := 0x40_0000

  /** `used` are all segments that are not free: the reserved first bytes, live segments, and what a
      step has in hand; `lists` and `orders` are the two list structures, in order. */
  datatype Arena = Arena(
    coalescing: bool,
    next: nat,
    headers: Headers,
    holes: seq<SegmentPtr>,
    firsts: Firsts,
    lists: seq<seq<SegmentPtr>>,
    orders: PageOrders,
    used: Blocks,
    pages: set<nat>)

  ghost function Sizes(h: Headers): Blocks {
    map p | p in h :: h[p].size
  }

  /** All segments, free or not. */
  ghost function AllBlocks(a: Arena): Blocks {
    a.used + Sizes(a.headers)
  }

  ghost predicate PagesBelow(next: nat, pages: set<nat>) {
    && PageStart(next)
    && (forall page :: page in pages ==> page + PAGE_SIZE <= next)
    && (next == 0 <==> pages == {})
  }

  ghost predicate Partition(a: Arena) {
    && Tiled(AllBlocks(a), a.pages)
    && (forall p :: p in a.headers ==> p !in a.used)
    && 0 !in a.headers
  }

  ghost predicate PageListsOk(a: Arena, out: set<SegmentPtr>) {
    a.coalescing ==> PagesOk(a.headers, a.firsts, a.orders, out) && forall page :: page in a.orders <==> page in a.pages
  }

  /** The invariant of the allocator, but for the reserved bytes. */
  ghost predicate Sound(a: Arena) {
    PagesBelow(a.next, a.pages) && Partition(a) && LevelsOk(a.headers, a.holes, a.lists, {}) && PageListsOk(a, {})
  }

  /** The first 32 bytes are reserved once there are pages. */
  ghost predicate Reserved(a: Arena) {
    a.pages != {} ==> 0 in a.used && a.used[0] == UNIT
  }

  // ----- segments and pages -----

  /** A segment of a page starts in one of the pages. */
  lemma StartsInPage(b: Blocks, pages: set<nat>, p: SegmentPtr)
    requires Tiled(b, pages) && p in b
    ensures Base(p) in pages
  {
    assert InBlock(p, b, p);
    assert Covered(p, b) && InPages(p, pages);
  }

  // ----- adjacency -----

  ghost predicate StartsIn(free: Blocks, base: nat, p: SegmentPtr) {
    p in free && Base(p) == base
  }

  /** No two free segments that start in the page are neighbours. */
  ghost predicate Settled(free: Blocks, base: nat) {
    forall p, q :: StartsIn(free, base, p) && StartsIn(free, base, q) ==> p + free[p] != q
  }

  /** No free segment that starts in the page touches [p, p + size). */
  ghost predicate Apart(free: Blocks, base: nat, p: SegmentPtr, size: nat) {
    forall q :: StartsIn(free, base, q) ==> q + free[q] != p && p + size != q
  }

  lemma SettledAdd(free: Blocks, base: nat, p: SegmentPtr, size: nat)
    requires Settled(free, base) && Apart(free, base, p, size) && p !in free && size > 0
    ensures Settled(free[p := size], base)
  {
    var g := free[p := size];
    forall s, t | StartsIn(g, base, s) && StartsIn(g, base, t)
      ensures s + g[s] != t
    {
      assert s != p ==> StartsIn(free, base, s);
      assert t != p ==> StartsIn(free, base, t);
    }
  }

  lemma SettledLess(free: Blocks, less: Blocks, base: nat)
    requires Settled(free, base) && forall p :: p in less ==> p in free && less[p] == free[p]
    ensures Settled(less, base)
  {
    forall s, t | StartsIn(less, base, s) && StartsIn(less, base, t)
      ensures s + less[s] != t
    {
      assert StartsIn(free, base, s) && StartsIn(free, base, t);
    }
  }

  /** The walk over a page has met places before c of its list, and none of them touches [p, p + size). */
  ghost predicate Passed(free: Blocks, list: seq<SegmentPtr>, c: nat, p: SegmentPtr, size: nat) {
    c <= |list| && forall j :: 0 <= j < c ==> list[j] in free && list[j] + free[list[j]] != p && p + size != list[j]
  }

  /** Two used neighbours become one segment. */
  lemma JoinUsed(a: Arena, l: SegmentPtr, r: SegmentPtr)
    requires Sound(a) && l in a.used && r in a.used && l + a.used[l] == r && r != 0
    ensures Sound(a.(used := Merge(a.used, l, r)))
  {
    hide LevelsOk, PagesOk, Tiled;
    MergeTiles(AllBlocks(a), a.pages, l, r);
    KeysOfSizes(a.headers);
    assert AllBlocks(a.(used := Merge(a.used, l, r))) == Merge(AllBlocks(a), l, r);
  }

  /** A used segment is cut in two. */
  lemma CutUsed(a: Arena, p: SegmentPtr, n: nat)
    requires Sound(a) && p in a.used && 0 < n < a.used[p] && Aligned(n)
    ensures p + n !in a.used && p + n !in a.headers && Sound(a.(used := Split(a.used, p, n)))
  {
    hide LevelsOk, PagesOk, Tiled, Aligned, PagesBelow, PageListsOk;
    SplitTiles(AllBlocks(a), a.pages, p, n);
    KeysOfSizes(a.headers);
    SplitUsed(a, p, n);
    PageListsUsed(a, Split(a.used, p, n));
  }

  lemma SplitUsed(a: Arena, p: SegmentPtr, n: nat)
    requires p in a.used && 0 < n < a.used[p] && p !in a.headers
    ensures p + n !in a.headers ==> AllBlocks(a.(used := Split(a.used, p, n))) == Split(AllBlocks(a), p, n)
  {
  }

  lemma PageListsUsed(a: Arena, used: Blocks)
    ensures PageListsOk(a.(used := used), {}) <==> PageListsOk(a, {})
  {
  }

  // ----- facts for the steps -----

  lemma HolesBound(h: Headers, holes: seq<SegmentPtr>, lists: seq<seq<SegmentPtr>>)
    requires LevelsOk(h, holes, lists, {})
    ensures |holes| == LEVEL_NUMBER && |lists| == LEVEL_NUMBER
  {
  }

  lemma HoleHeader(h: Headers, holes: seq<SegmentPtr>, lists: seq<seq<SegmentPtr>>, l: nat)
    requires LevelsOk(h, holes, lists, {}) && l < LEVEL_NUMBER
    ensures holes[l] != 0 ==> holes[l] in h && Level(h[holes[l]].size) == l
  {
    hide Level;
    ListInHeaders(h, holes[l], lists[l], l);
    FirstOf(h, holes[l], lists[l], l);
  }

  lemma PushSizes(h: Headers, first: SegmentPtr, p: SegmentPtr, size: nat)
    requires p !in h
    ensures Sizes(Pushed(h, first, p, size)) == Sizes(h)[p := size]
  {
  }

  /** A header outside the page lists. */
  lemma PagesAdd(h: Headers, h': Headers, firsts: Firsts, orders: PageOrders, p: SegmentPtr)
    requires PagesOk(h, firsts, orders, {}) && p !in h && (forall q :: q in h' <==> q in h || q == p)
    requires forall q :: q in h ==> SameInPage(h, h', q)
    ensures PagesOk(h', firsts, orders, {p})
  {
    hide Base, PageListOk;
    forall base | base in orders
      ensures PageListOk(h', firsts[base], base, orders[base]) && p !in orders[base]
    {
      InThePage(h, firsts[base], base, orders[base]);
      PageListFrame(h, h', firsts[base], base, orders[base]);
    }
  }

  lemma PushedInPage(h: Headers, first: SegmentPtr, p: SegmentPtr, size: nat)
    requires p !in h
    ensures var h' := Pushed(h, first, p, size);
            && (forall q :: q in h' <==> q in h || q == p) && (forall q :: q in h ==> SameInPage(h, h', q))
            && h'[p].nextInPage == PAGE_SIZE
  {
  }

  /** The first element of a page list. */
  lemma FirstInPage(h: Headers, first: nat, base: nat, list: seq<SegmentPtr>)
    requires PageListOk(h, first, base, list)
    ensures first < PAGE_SIZE <==> list != []
    ensures list != [] ==> base + first == list[0] && list[0] in h && Base(list[0]) == base
  {
    if list != [] {
      assert InPageOk(h, base, list, 0);
    }
  }

  lemma NextInPage(h: Headers, first: nat, base: nat, list: seq<SegmentPtr>, k: nat)
    requires PageListOk(h, first, base, list) && k < |list|
    ensures list[k] in h && Base(list[k]) == base && base <= list[k] < base + PAGE_SIZE
    ensures h[list[k]].nextInPage < PAGE_SIZE <==> k + 1 < |list|
    ensures k + 1 < |list| ==> base + h[list[k]].nextInPage == list[k + 1] && list[k] < list[k + 1] && list[k + 1] in h
  {
    assert InPageOk(h, base, list, k);
    assert k + 1 < |list| ==> InPageOk(h, base, list, k + 1);
  }

  lemma ThePage(h: Headers, firsts: Firsts, orders: PageOrders, out: set<SegmentPtr>, base: nat)
    requires PagesOk(h, firsts, orders, out) && base in orders
    ensures base in firsts && PageListOk(h, firsts[base], base, orders[base])
          && forall p :: p in out ==> p !in orders[base]
  {
  }

  lemma BelongsFirst(h: Headers, first: nat, base: nat, list: seq<SegmentPtr>, p: SegmentPtr)
    requires PageListOk(h, first, base, list) && base <= p < base + first && first < PAGE_SIZE
    ensures Belongs(list, 0, p) && OffsetTo(base, first, list, 0)
  {
  }

  lemma BelongsBehind(h: Headers, first: nat, base: nat, list: seq<SegmentPtr>, k: nat, p: SegmentPtr)
    requires PageListOk(h, first, base, list) && k < |list| && list[k] in h && list[k] < p < base + PAGE_SIZE
    requires p < base + h[list[k]].nextInPage
    ensures Belongs(list, k + 1, p) && OffsetTo(base, h[list[k]].nextInPage, list, k + 1)
  {
    assert InPageOk(h, base, list, k);
  }

  lemma InsertedLinks(h: Headers, base: nat, list: seq<SegmentPtr>, n: nat, p: SegmentPtr, next: nat)
    requires n <= |list| && p in h && base <= p
    ensures var h' := Inserted(h, base, list, n, p, next);
            (forall q :: q in h' <==> q in h) && (forall q :: q in h ==> SameLinks(h, h', q)) && Sizes(h') == Sizes(h)
  {
  }

  lemma PlaceInLevel(h: Headers, holes: seq<SegmentPtr>, lists: seq<seq<SegmentPtr>>, p: SegmentPtr) returns (n: nat)
    requires LevelsOk(h, holes, lists, {}) && p in h
    ensures var l := Level(h[p].size);
            |lists| == LEVEL_NUMBER == |holes| && n < |lists[l]| && lists[l][n] == p && ListOk(h, holes[l], lists[l], l)
  {
    n :| 0 <= n < |lists[Level(h[p].size)]| && lists[Level(h[p].size)][n] == p;
  }

  lemma PlaceInPage(h: Headers, firsts: Firsts, orders: PageOrders, p: SegmentPtr) returns (n: nat)
    requires PagesOk(h, firsts, orders, {}) && p in h
    ensures Base(p) in orders && n < |orders[Base(p)]| && orders[Base(p)][n] == p
  {
    n :| 0 <= n < |orders[Base(p)]| && orders[Base(p)][n] == p;
  }

  lemma SamePlace(h: Headers, first: nat, base: nat, list: seq<SegmentPtr>, k: nat, n: nat)
    requires PageListOk(h, first, base, list) && k < |list| && n < |list| && list[k] == list[n]
    ensures k == n
  {
  }

  lemma BypassedLinks(h: Headers, list: seq<SegmentPtr>, n: nat)
    requires n < |list| && list[n] in h
    ensures var h' := Bypassed(h, list, n);
            (forall q :: q in h' <==> q in h) && (forall q :: q in h ==> SameLinks(h, h', q))
  {
  }

  /** A segment that becomes free changes sides, and the partition stays. */
  lemma BecomesFree(a: Arena, b: Arena, p: SegmentPtr)
    requires Sound(a) && p in a.used && p != 0 && Sizes(b.headers) == Sizes(a.headers)[p := a.used[p]]
          && b.used == a.used - {p}
    requires b.pages == a.pages && b.next == a.next && b.coalescing == a.coalescing
    requires LevelsOk(b.headers, b.holes, b.lists, {}) && PageListsOk(b, {})
    ensures Sound(b)
  {
    hide LevelsOk, PageListsOk, Tiled;
    KeysOfSizes(a.headers);
    KeysOfSizes(b.headers);
    assert AllBlocks(b) == AllBlocks(a);
  }

  lemma BecomesUsed(a: Arena, b: Arena, p: SegmentPtr)
    requires Sound(a) && p in a.headers && Sizes(b.headers) == Sizes(a.headers) - {p}
          && b.used == a.used[p := a.headers[p].size]
    requires b.pages == a.pages && b.next == a.next && b.coalescing == a.coalescing
    requires LevelsOk(b.headers, b.holes, b.lists, {}) && PageListsOk(b, {})
    ensures Sound(b)
  {
    hide LevelsOk, PageListsOk, Tiled;
    KeysOfSizes(a.headers);
    KeysOfSizes(b.headers);
    assert AllBlocks(b) == AllBlocks(a);
  }

  lemma KeysOfSizes(h: Headers)
    ensures forall p :: p in h <==> p in Sizes(h)
    ensures forall p :: p in h ==> h[p].size == Sizes(h)[p]
  {
  }

  lemma SoundParts(a: Arena)
    requires Sound(a)
    ensures LevelsOk(a.headers, a.holes, a.lists, {}) && Tiled(AllBlocks(a), a.pages) && 0 !in a.headers
    ensures a.coalescing ==>
          PagesOk(a.headers, a.firsts, a.orders, {}) && forall page :: page in a.orders <==> page in a.pages
    ensures forall p :: p in a.headers ==> p !in a.used
  {
  }

  lemma ForgetSize(h: Headers, p: SegmentPtr)
    ensures Sizes(h - {p}) == Sizes(h) - {p}
  {
  }

  lemma SamePages(orders: PageOrders, orders': PageOrders, base: nat, pages: set<nat>)
    requires base in orders && base in orders' && orders' == orders[base := orders'[base]]
    requires forall page :: page in orders <==> page in pages
    ensures forall page :: page in orders' <==> page in pages
  {
  }

  // ----- the walk of a freed segment over its page -----

  lemma PageOfUsed(a: Arena, p: SegmentPtr)
    requires a.coalescing && Sound(a) && p in a.used
    ensures Base(p) in a.orders && Base(p) in a.firsts
          && PageListOk(a.headers, a.firsts[Base(p)], Base(p), a.orders[Base(p)])
    ensures Passed(Sizes(a.headers), a.orders[Base(p)], 0, p, 0)
  {
    hide LevelsOk, Tiled, PageListOk;
    StartsInPage(AllBlocks(a), a.pages, p);
  }

  /** A page list holds all free segments that start in its page. */
  lemma NothingThere(a: Arena, base: nat, p: SegmentPtr, size: nat)
    requires a.coalescing && Sound(a) && base in a.orders && base in a.firsts && a.firsts[base] >= PAGE_SIZE
    ensures Apart(Sizes(a.headers), base, p, size)
  {
    hide LevelsOk, Tiled, PageListOk, Base;
    ThePage(a.headers, a.firsts, a.orders, {}, base);
    FirstInPage(a.headers, a.firsts[base], base, a.orders[base]);
    KeysOfSizes(a.headers);
    assert forall q :: q in a.headers && Base(q) == base ==> q in a.orders[base];
  }

  lemma WalkStep(a: Arena, base: nat, c: nat)
    requires a.coalescing && Sound(a) && base in a.orders && c < |a.orders[base]|
    ensures base in a.firsts && PageListOk(a.headers, a.firsts[base], base, a.orders[base])
    ensures var q := a.orders[base][c];
            && q in a.headers && Base(q) == base && base <= q < base + PAGE_SIZE && q != 0 && q !in a.used
            && (forall j :: 0 <= j < c ==> a.orders[base][j] < q)
            && (forall j :: 0 <= j <= c ==> Base(a.orders[base][j]) == base)
            && (if c + 1 < |a.orders[base]| then base + a.headers[q].nextInPage == a.orders[base][c + 1]
                  else a.headers[q].nextInPage >= PAGE_SIZE)
            && q < base + a.headers[q].nextInPage && (a.headers[q].nextInPage < PAGE_SIZE <==> c + 1 < |a.orders[base]|)
            && q in Sizes(a.headers) && Sizes(a.headers)[q] == a.headers[q].size > 0
  {
    hide LevelsOk, Base;
    ThePage(a.headers, a.firsts, a.orders, {}, base);
    NextInPage(a.headers, a.firsts[base], base, a.orders[base], c);
    InThePage(a.headers, a.firsts[base], base, a.orders[base]);
    KeysOfSizes(a.headers);
    assert a.orders[base][c] in AllBlocks(a);
  }

  lemma RemovedAt(a: Arena, base: nat, list: seq<SegmentPtr>, n: nat, c: nat)
    requires a.coalescing && Sound(a) && base in a.orders && list == a.orders[base] && n < |list| && c < |list|
          && list[n] == list[c]
    ensures n == c
  {
    hide LevelsOk, Base, Tiled;
    ThePage(a.headers, a.firsts, a.orders, {}, base);
    SamePlace(a.headers, a.firsts[base], base, list, n, c);
  }

  lemma PassedOne(free: Blocks, list: seq<SegmentPtr>, c: nat, p: SegmentPtr, size: nat)
    requires c < |list| && list[c] in free && list[c] + free[list[c]] != p && p + size != list[c]
    ensures Passed(free, list, c, p, size) ==> Passed(free, list, c + 1, p, size)
  {
  }

  /** After merging to the left, what was passed does not touch the larger segment: the segment at c had no
      free neighbour in the page either. */
  lemma PassedLeft(free0: Blocks, free: Blocks, free': Blocks, base: nat, list: seq<SegmentPtr>, c: nat, p: SegmentPtr,
      size: nat)
    requires Settled(free0, base) && Passed(free, list, c, p, size) && c < |list| && list[c] in free
    requires forall q :: q in free ==> q in free0 && free[q] == free0[q]
    requires free' == free - {list[c]} && list[c] + free[list[c]] == p
    requires forall j :: 0 <= j <= c ==> Base(list[j]) == base
    requires forall j :: 0 <= j < c ==> list[j] != list[c]
    ensures Passed(free', list[..c] + list[c + 1..], c, list[c], size + free[list[c]])
  {
    forall j | 0 <= j < c
      ensures list[j] in free' && list[j] + free'[list[j]] != list[c] && list[c] + size + free[list[c]] != list[j]
    {
      assert StartsIn(free0, base, list[j]) && StartsIn(free0, base, list[c]);
    }
  }

  /** After merging to the right nothing in the page touches the larger segment. */
  lemma PassedRight(free0: Blocks, a: Arena, b: Arena, base: nat, list: seq<SegmentPtr>, c: nat, p: SegmentPtr,
      size: nat)
    requires a.coalescing && Sound(a) && base in a.orders && list == a.orders[base] && c < |list|
          && list[c] in Sizes(a.headers)
    requires Settled(free0, base) && Passed(Sizes(a.headers), list, c, p, size) && p + size == list[c]
    requires forall q :: q in Sizes(a.headers) ==> q in free0 && Sizes(a.headers)[q] == free0[q]
    requires Sizes(b.headers) == Sizes(a.headers) - {list[c]}
    ensures Apart(Sizes(b.headers), base, p, size + Sizes(a.headers)[list[c]])
  {
    hide LevelsOk, Tiled, PageListOk, Base, Settled;
    ThePage(a.headers, a.firsts, a.orders, {}, base);
    KeysOfSizes(a.headers);
    forall q | StartsIn(Sizes(b.headers), base, q)
      ensures q + Sizes(b.headers)[q] != p && p + size + Sizes(a.headers)[list[c]] != q
    {
      PlaceOf(a, base, q);
      RightNeighbour(free0, a, base, list, c, p, size, q);
    }
  }

  lemma PlaceOf(a: Arena, base: nat, q: SegmentPtr)
    requires a.coalescing && Sound(a) && base in a.orders && q in a.headers && Base(q) == base
    ensures q in a.orders[base]
  {
  }

  lemma RightNeighbour(free0: Blocks, a: Arena, base: nat, list: seq<SegmentPtr>, c: nat, p: SegmentPtr, size: nat,
      q: SegmentPtr)
    requires c < |list| && q in list && q != list[c] && base in a.firsts
          && PageListOk(a.headers, a.firsts[base], base, list)
    requires list[c] in Sizes(a.headers) && q in Sizes(a.headers) && Sizes(a.headers)[list[c]] >= 0
    requires Settled(free0, base) && Passed(Sizes(a.headers), list, c, p, size) && p + size == list[c]
    requires forall q :: q in Sizes(a.headers) ==> q in free0 && Sizes(a.headers)[q] == free0[q]
    ensures q + Sizes(a.headers)[q] != p && list[c] + Sizes(a.headers)[list[c]] != q
  {
    hide Base;
    InThePage(a.headers, a.firsts[base], base, list);
    var j :| 0 <= j < |list| && list[j] == q;
    assert StartsIn(free0, base, q) && StartsIn(free0, base, list[c]);
  }

  lemma PassedAll(a: Arena, base: nat, p: SegmentPtr, size: nat)
    requires a.coalescing && Sound(a) && base in a.orders
          && Passed(Sizes(a.headers), a.orders[base], |a.orders[base]|, p, size)
    ensures Apart(Sizes(a.headers), base, p, size)
  {
    hide LevelsOk, Tiled, PageListOk, Base;
    KeysOfSizes(a.headers);
    forall q | StartsIn(Sizes(a.headers), base, q)
      ensures q + Sizes(a.headers)[q] != p && p + size != q
    {
      assert q in a.orders[base];
    }
  }

  lemma FreeNotUsed(a: Arena)
    requires Sound(a)
    ensures forall q :: q in Sizes(a.headers) ==> q !in a.used
  {
    hide LevelsOk, Tiled;
  }

  lemma FreshFree(a: Arena, p: SegmentPtr)
    requires Sound(a) && p in a.used
    ensures p !in Sizes(a.headers) && a.used[p] > 0
  {
    hide LevelsOk;
    assert p in AllBlocks(a) && AllBlocks(a)[p] == a.used[p];
  }

  lemma SizeOfHeader(a: Arena, p: SegmentPtr)
    requires Sound(a) && p in a.headers
    ensures p != 0 && p !in a.used && a.headers[p].size > 0 && Aligned(a.headers[p].size)
  {
    hide LevelsOk;
    assert p in AllBlocks(a) && AllBlocks(a)[p] == a.headers[p].size;
  }

  /** What a segment has to spare can be cut off and freed. */
  lemma CutRest(a: Arena, p: SegmentPtr, size: nat)
    requires Sound(a) && p in a.used && 0 < size < a.used[p] && Aligned(size)
    ensures p + size !in a.used && Sound(a.(used := Split(a.used, p, size)))
    ensures AlignSize(a.used[p] - size) == a.used[p] - size
  {
    hide LevelsOk, PagesBelow, PageListsOk, PagesOk;
    CutUsed(a, p, size);
    assert p in AllBlocks(a) && AllBlocks(a)[p] == a.used[p];
    AlignedSums(a.used[p], size);
  }

  /** Taking a hole and freeing what it has to spare adds one used segment. */
  lemma CutAndFree(used: Blocks, p: SegmentPtr, holeSize: nat, size: nat)
    requires p + size !in used && 0 < size < holeSize
    ensures Split(used[p := holeSize], p, size) - {p + size} == used[p := size]
  {
  }

  // ----- new pages -----

  /** i new pages from `from` on have empty lists. */
  ghost predicate MorePages(firsts: Firsts, orders: PageOrders, firsts': Firsts, orders': PageOrders, from: nat, i: nat)
  {
    && (forall page :: page in orders' <==> page in orders || page in Run(from, i))
    && (forall page :: page in firsts' <==> page in firsts || page in Run(from, i))
    && (forall page :: page in Run(from, i) ==>
          page in orders' && page in firsts' && orders'[page] == [] && firsts'[page] == FIRST_UNSET)
    && (forall page :: page in orders && page !in Run(from, i) ==> orders'[page] == orders[page])
    && (forall page :: page in firsts && page !in Run(from, i) ==> firsts'[page] == firsts[page])
  }

  lemma MoreNone(firsts: Firsts, orders: PageOrders, from: nat)
    ensures MorePages(firsts, orders, firsts, orders, from, 0)
  {
    assert Run(from, 0) == {};
  }

  lemma MoreOne(firsts: Firsts, orders: PageOrders, firsts': Firsts, orders': PageOrders, from: nat, i: nat)
    requires MorePages(firsts, orders, firsts', orders', from, i)
    ensures var page := from + i * PAGE_SIZE;
            MorePages(firsts, orders, firsts'[page := FIRST_UNSET], orders'[page := []], from, i + 1)
  {
    var page := from + i * PAGE_SIZE;
    assert Run(from, i + 1) == Run(from, i) + {page};
    hide Run;
  }

  lemma NoPage(a: Arena, start: nat)
    requires Sound(a) && a.next <= start
    ensures PageStart(a.next) && forall page :: page in a.pages ==> page + PAGE_SIZE <= start
  {
    hide LevelsOk, Tiled;
  }

  /** A run of pages behind all others is one new used segment. */
  lemma AddPages(a: Arena, start: nat, n: nat, firsts: Firsts, orders: PageOrders)
    requires Sound(a) && a.next <= start && PageStart(start) && n > 0
    requires if a.coalescing then MorePages(a.firsts, a.orders, firsts, orders, start, n)
          else firsts == a.firsts && orders == a.orders
    ensures start !in a.used && start !in a.headers
    ensures Sound(a.(next := start + n * PAGE_SIZE, used := a.used[start := n * PAGE_SIZE],
          pages := a.pages + Run(start, n), firsts := firsts, orders := orders))
  {
    hide LevelsOk, Tiled, PagesOk, Run, MorePages;
    var b := a.(next := start + n * PAGE_SIZE, used := a.used[start := n * PAGE_SIZE], pages := a.pages + Run(start, n),
        firsts := firsts, orders := orders);
    RunTiles(AllBlocks(a), a.pages, start, n);
    assert AllBlocks(b) == AllBlocks(a)[start := n * PAGE_SIZE];
    RunStarts(start, n);
    NewEnd(a.next, a.pages, start, n);
    if a.coalescing {
      NewLists(a, firsts, orders, start, n);
    }
  }

  lemma NewEnd(next: nat, pages: set<nat>, start: nat, n: nat)
    requires PagesBelow(next, pages) && next <= start && PageStart(start) && n > 0
    ensures PagesBelow(start + n * PAGE_SIZE, pages + Run(start, n))
  {
    RunStarts(start, n);
    assert start + 0 * PAGE_SIZE in Run(start, n);
  }

  lemma NewLists(a: Arena, firsts: Firsts, orders: PageOrders, start: nat, n: nat)
    requires a.coalescing && Sound(a) && a.next <= start && PageStart(start)
    requires MorePages(a.firsts, a.orders, firsts, orders, start, n)
    ensures PagesOk(a.headers, firsts, orders, {}) && forall page :: page in orders <==> page in a.pages + Run(start, n)
  {
    hide LevelsOk, Tiled, Base, PageListOk, Run;
    RunStarts(start, n);
    forall base | base in orders
      ensures base in firsts && PageListOk(a.headers, firsts[base], base, orders[base])
      ensures base in a.orders ==> base !in Run(start, n)
    {
      if base !in a.orders {
        EmptyList(a.headers, base);
      }
    }
  }

  lemma EmptyList(h: Headers, base: nat)
    ensures PageListOk(h, FIRST_UNSET, base, [])
  {
  }

  // ----- first fit -----

  /** The first hole of a level, if it is large enough. */
  ghost function HoleAt(h: Headers, holes: seq<SegmentPtr>, level: nat, size: nat): SegmentPtr {
    if level < |holes| && holes[level] in h && h[holes[level]].size >= size then holes[level] else 0
  }

  /** A hole of the level of the size itself is preferred to one of the level of all larger sizes. */
  ghost function FirstFit(h: Headers, holes: seq<SegmentPtr>, size: nat): SegmentPtr {
    if HoleAt(h, holes, Level(size), size) != 0 then HoleAt(h, holes, Level(size), size)
        else HoleAt(h, holes, LEVEL_OTHER, size)
  }

  /** A request is served from a hole if and only if the first one of either list is large enough. */
  lemma FirstFits(h: Headers, holes: seq<SegmentPtr>, lists: seq<seq<SegmentPtr>>, size: nat)
    requires LevelsOk(h, holes, lists, {}) && 0 !in h
    ensures var p := FirstFit(h, holes, size);
            && (p != 0 <==> (exists l :: (l == Level(size) || l == LEVEL_OTHER) && |lists[l]| > 0 && lists[l][0] in h
                                         && h[lists[l][0]].size >= size))
            && (p != 0 ==>
                  p in h && h[p].size >= size && |lists[Level(h[p].size)]| > 0 && p == lists[Level(h[p].size)][0])
  {
    hide Level, ListOk;
    forall l | 0 <= l < LEVEL_NUMBER
      ensures holes[l] == (if lists[l] == [] then 0 else lists[l][0])
      ensures lists[l] != [] ==> lists[l][0] in h && lists[l][0] != 0 && Level(h[lists[l][0]].size) == l
    {
      FirstOf(h, holes[l], lists[l], l);
      HoleHeader(h, holes, lists, l);
      ListInHeaders(h, holes[l], lists[l], l);
    }
  }

  // ----- areas -----

  /** A run stays in the area it starts in. */
  ghost predicate InOneArea(start: nat, n: nat) {
    start % AREA_SIZE + n * PAGE_SIZE <= AREA_SIZE
  }

  lemma SameArea(next: nat, n: nat, end: nat)
    requires n > 0 && n * PAGE_SIZE <= AREA_SIZE && next <= end
    requires end == next + n * PAGE_SIZE || end == next + (n - 1) * PAGE_SIZE
    requires PageStart(next)
    ensures InOneArea(if next / AREA_SIZE != end / AREA_SIZE then end / AREA_SIZE * AREA_SIZE else next, n)
  {
    var i, m := end / AREA_SIZE, next / PAGE_SIZE;
    if next / AREA_SIZE != i {
      assert i * AREA_SIZE % AREA_SIZE == 0;
    } else {
      assert next % AREA_SIZE == next - i * AREA_SIZE == (m - i * 1024) * PAGE_SIZE;
      assert end - i * AREA_SIZE < AREA_SIZE;
    }
  }

  lemma NextArea(a: Arena, end: nat)
    requires Sound(a) && a.next <= end
    ensures PageStart(a.next) && (a.next == 0 && end < AREA_SIZE ==> a.next / AREA_SIZE == end / AREA_SIZE)
    ensures a.next / AREA_SIZE != end / AREA_SIZE ==>
          a.next <= end / AREA_SIZE * AREA_SIZE && PageStart(end / AREA_SIZE * AREA_SIZE)
  {
    hide Partition, LevelsOk, PageListsOk;
    AreaStart(a.next, end);
  }

  lemma AreaStart(next: nat, end: nat)
    requires next <= end
    ensures PageStart(end / AREA_SIZE * AREA_SIZE)
          && (next / AREA_SIZE != end / AREA_SIZE ==> next <= end / AREA_SIZE * AREA_SIZE)
  {
    var i := end / AREA_SIZE;
    assert i * AREA_SIZE == (i * 1024) * PAGE_SIZE;
    assert next < (next / AREA_SIZE + 1) * AREA_SIZE;
  }

  lemma AreaOf(a: Arena, last: nat, alloced: nat)
    requires Sound(a) && 0 < alloced && alloced * PAGE_SIZE <= AREA_SIZE && last == a.next + PAGE_SIZE * (alloced - 1)
    ensures PageStart(a.next) && (a.next == 0 ==> last / AREA_SIZE == 0)
    ensures a.next / AREA_SIZE != last / AREA_SIZE ==>
              a.next < last / AREA_SIZE * AREA_SIZE && PageStart(last / AREA_SIZE * AREA_SIZE)
                  && (last / AREA_SIZE * AREA_SIZE - a.next) % PAGE_SIZE == 0
  {
    hide LevelsOk, Tiled;
    NoPage(a, a.next);
    AreaAfter(a.next, last);
  }

  lemma AreaAfter(next: nat, last: nat)
    requires PageStart(next) && next <= last
    ensures var start := last / AREA_SIZE * AREA_SIZE;
            PageStart(start)
                && (next / AREA_SIZE != last / AREA_SIZE ==> next < start && (start - next) % PAGE_SIZE == 0)
  {
    var i, j, m := last / AREA_SIZE, next / AREA_SIZE, next / PAGE_SIZE;
    assert i * AREA_SIZE == (i * 1024) * PAGE_SIZE;
    if i != j {
      assert j + 1 <= i;
      assert next < (j + 1) * AREA_SIZE <= i * AREA_SIZE;
      assert i * AREA_SIZE - next == (i * 1024 - m) * PAGE_SIZE;
    }
  }

  lemma CutGap(a: Arena, from: nat, gap: nat, n: nat)
    requires Sound(a) && from in a.used && a.used[from] == (gap + n) * PAGE_SIZE && gap > 0 && n > 0
    ensures gap * PAGE_SIZE < a.used[from] && Sound(a.(used := Split(a.used, from, gap * PAGE_SIZE)))
    ensures from + gap * PAGE_SIZE !in a.used
  {
    PagesAligned(gap);
    CutUsed(a, from, gap * PAGE_SIZE);
  }

  /** Without the gap, the run is what is new. */
  lemma GapUsed(used: Blocks, from: nat, gap: nat, n: nat)
    requires from !in used && gap > 0 && gap * PAGE_SIZE < (gap + n) * PAGE_SIZE
    ensures Split(used[from := (gap + n) * PAGE_SIZE], from, gap * PAGE_SIZE) - {from}
          == used[from + gap * PAGE_SIZE := n * PAGE_SIZE]
  {
    assert (gap + n) * PAGE_SIZE - gap * PAGE_SIZE == n * PAGE_SIZE;
  }

  lemma FreeGap(a: Arena, from: nat, gap: nat)
    ensures AlignSize(gap * PAGE_SIZE) == gap * PAGE_SIZE
  {
    PagesAligned(gap);
  }

  lemma RunsTogether(from: nat, gap: nat, n: nat)
    ensures Run(from + gap * PAGE_SIZE, n) <= Run(from, gap + n)
  {
    var later, all := Run(from + gap * PAGE_SIZE, n), Run(from, gap + n);
    forall page | page in later
      ensures page in all
    {
      var i :| 0 <= i < n && page == from + gap * PAGE_SIZE + i * PAGE_SIZE;
      assert page == from + (gap + i) * PAGE_SIZE;
    }
  }

  lemma FreshRun(a: Arena, from: nat, start: nat, n: nat)
    requires Sound(a) && a.next == from <= start
    ensures start !in a.used
  {
    hide LevelsOk;
    if start in a.used {
      BlockBelow(AllBlocks(a), a.pages, start, from);
      assert false;
    }
  }

  // ----- the first allocation -----

  /** How many pages a persistent document gets: more than asked for if that is few, and a whole area behind 2^24. */
  function RunLength(next: nat, asked: nat): nat {
    var least := if next > 0x100_0000 then AREA_SIZE / PAGE_SIZE else 4;
    if asked < least then least else asked
  }

  /** How many pages a request for so many gets. */
  function Given(coalescing: bool, next: nat, asked: nat): nat {
    if coalescing then RunLength(next, asked) else asked
  }

  /** How many pages a request needs; the first one has the reserved bytes in front of it. */
  function Needed(next: nat, size: nat): nat {
    var all := if next == 0 then size + UNIT else size;
    all / PAGE_SIZE + if all % PAGE_SIZE != 0 then 1 else 0
  }

  /** The first request, together with the reserved bytes, fills the first pages to the last byte. */
  ghost predicate FillsFirstPages(a: Arena, size: nat) {
    a.pages == {} && (size + UNIT) % PAGE_SIZE == 0 && (a.coalescing ==> size + UNIT >= 4 * PAGE_SIZE)
  }

  lemma EmptyDocument(a: Arena)
    requires Sound(a)
    ensures a.next == 0 <==> a.pages == {}
    ensures a.pages == {} ==> a.used == map[] && a.headers == map[]
  {
    hide LevelsOk, PageListsOk;
    if a.pages == {} {
      forall p | p in AllBlocks(a)
        ensures false
      {
        StartsInPage(AllBlocks(a), a.pages, p);
      }
      assert forall p :: p in a.used || p in a.headers ==> p in AllBlocks(a);
    }
  }

  lemma NewRun(a: Arena, start: nat, n: nat)
    requires Sound(a) && a.next <= start && n > 0
    ensures start in Run(start, n) && start !in a.pages && (start == 0 ==> a.pages == {})
  {
    hide LevelsOk, PageListsOk, Tiled;
    assert start + 0 * PAGE_SIZE in Run(start, n);
  }

  lemma PagesNeeded(next: nat, size: nat)
    requires 0 < size <= SEGMENT_SIZE_MAX
    ensures 0 < Needed(next, size) && Needed(next, size) * PAGE_SIZE < AREA_SIZE
    ensures (if next == 0 then size + UNIT else size) <= Needed(next, size) * PAGE_SIZE
  {
  }

  lemma FirstRunFull(a: Arena, size: nat, n: nat)
    requires a.pages == {} ==> n == Given(a.coalescing, 0, Needed(0, size))
    ensures FillsFirstPages(a, size) <==> a.pages == {} && n * PAGE_SIZE == size + UNIT
  {
  }

  lemma CutReserved(a: Arena, size: nat)
    requires Sound(a) && 0 in a.used && a.used[0] == size >= PAGE_SIZE
    ensures UNIT !in a.used && Sound(a.(used := Split(a.used, 0, UNIT)))
  {
    CutUsed(a, 0, UNIT);
  }

  lemma UnitMore(size: nat)
    requires Aligned(size)
    ensures Aligned(size + UNIT) && (size >= UNIT ==> Aligned(size - UNIT))
  {
  }

  /** A request on new pages adds its segment, and in an empty document the reserved bytes. */
  lemma ReservedOnce(a: Arena, used: Blocks, pages: set<nat>, p: SegmentPtr, size: nat)
    requires Reserved(a) && a.pages < pages && p != 0
    requires a.pages == {} ==> a.used == map[]
    requires used == if a.pages == {} then a.used[0 := UNIT][p := size] else a.used[p := size]
    ensures (pages != {} ==> 0 in used && used[0] == UNIT) && used - {0} == (a.used - {0})[p := size]
  {
  }

  /** A free segment without a size breaks the invariant. */
  lemma EmptySegment(a: Arena, p: SegmentPtr)
    requires p in Sizes(a.headers) && Sizes(a.headers)[p] == 0
    ensures !Sound(a)
  {
    if Sound(a) {
      SizeOfHeader(a, p);
    }
  }

  lemma AlignedRequest(size: nat)
    requires 0 < size <= SEGMENT_SIZE_MAX
    ensures 0 < AlignSize(size) <= SEGMENT_SIZE_MAX && Aligned(AlignSize(size))
  {
  }

  // ----- what the invariant says -----

  ghost predicate InLevelLists(a: Arena, p: SegmentPtr) {
    exists l :: 0 <= l < |a.lists| && p in a.lists[l]
  }

  ghost predicate InPageLists(a: Arena, p: SegmentPtr) {
    exists base :: base in a.orders && p in a.orders[base]
  }

  /** With coalescing on, the two list structures hold the same segments: exactly the free ones. */
  lemma SameFreeSegments(a: Arena, p: SegmentPtr)
    requires Sound(a) && a.coalescing
    ensures InLevelLists(a, p) <==> p in a.headers
    ensures InPageLists(a, p) <==> p in a.headers
  {
    hide Level, Base, Tiled, ListOk, PageListOk;
    if InLevelLists(a, p) {
      var l :| 0 <= l < |a.lists| && p in a.lists[l];
      ListInHeaders(a.headers, a.holes[l], a.lists[l], l);
    }
    if InPageLists(a, p) {
      var base :| base in a.orders && p in a.orders[base];
      InThePage(a.headers, a.firsts[base], base, a.orders[base]);
    }
  }

  /** Used segments do not overlap each other or free ones, and only the reserved one touches the first 32 bytes. */
  lemma NoOverlap(a: Arena, p: SegmentPtr, q: SegmentPtr)
    requires Sound(a) && p in a.used && p < q
    ensures q in a.used ==> p + a.used[p] <= q
    ensures q in a.headers ==> p + a.used[p] <= q
    ensures InPages(p, a.pages)
  {
    hide LevelsOk, PageListsOk;
    assert p in AllBlocks(a) && AllBlocks(a)[p] == a.used[p];
    assert q in a.used || q in a.headers ==> q in AllBlocks(a);
    assert InBlock(p, AllBlocks(a), p);
    assert Covered(p, AllBlocks(a));
  }
}
