/** DocumentAllocator: allocation from holes and new pages, and freeing with coalescing. The persistent
    allocator coalesces; the volatile one does not. */
module Allocator {
  import opened Units
  import opened Tiles
  import opened FreeLists
  import opened PageLists
  import opened Arena
  import opened HoleSteps

  datatype Outcome = Done | TooLarge | Bug

  class DocumentAllocator {
    const coalescing: bool
    var nextRelativePagePtr: nat
    var headers: Headers
    var firstFreeHole: seq<SegmentPtr>
    var firsts: Firsts
    ghost var lists: seq<seq<SegmentPtr>>
    ghost var orders: PageOrders
    ghost var used: Blocks
    ghost var pages: set<nat>

    ghost function A(): Arena
      reads this
    {
      Arena(coalescing, nextRelativePagePtr, headers, firstFreeHole, firsts, lists, orders, used, pages)
    }

    ghost predicate Valid()
      reads this
    {
      Sound(A()) && Reserved(A())
    }

    /** The free segments, in the order of the level lists. */
    ghost function Free(): Holes
      reads this
    {
      HolesOf(A())
    }

    /** The segments handed out and not freed. */
    ghost function Live(): Blocks
      reads this
    {
      used - {0}
    }

    /** initDocumentAllocationHeader */
    constructor (coalescing: bool)
      ensures Valid() && Live() == map[] && pages == {} && this.coalescing == coalescing
      ensures Free() == NO_HOLES && nextRelativePagePtr == 0
    {
      this.coalescing := coalescing;
      nextRelativePagePtr, headers, firstFreeHole, firsts := 0, map[], [0, 0, 0, 0, 0], map[];
      lists, orders, used, pages := [[], [], [], [], []], map[], map[], {};
    }

    /** The second half of markSegmentAsFree: into the list of its level, and of its page. */
    method LinkFree(p: SegmentPtr, size: nat)
      requires Sound(A()) && p in used && p != 0 && used[p] == size
      modifies this
      ensures Sound(A()) && used == old(used) - {p} && pages == old(pages)
            && nextRelativePagePtr == old(nextRelativePagePtr)
      ensures Sizes(headers) == old(Sizes(headers))[p := size] && Free() == HolePushed(old(Free()), p, size)
    {
      hide LevelsOk, PagesOk, Sound, Base, Sizes;
      ghost var a := A();
      SoundParts(a);
      if coalescing {
        StartsInPage(AllBlocks(a), pages, p);
      }
      PushFree(p, size);
      if coalescing {
        InsertFreeSegmentInPageList(p);
      }
      used := used - {p};
      BecomesFree(a, A(), p);
    }

    /** The header of a free segment, at the front of the list of its level. */
    method PushFree(p: SegmentPtr, size: nat)
      requires LevelsOk(headers, firstFreeHole, lists, {}) && p !in headers && p != 0 && 0 !in headers
      modifies `headers, `firstFreeHole, `lists
      ensures LevelsOk(headers, firstFreeHole, lists, {}) && Sizes(headers) == old(Sizes(headers))[p := size]
      ensures Free() == HolePushed(old(Free()), p, size)
      ensures p in headers && headers[p].nextInPage == PAGE_SIZE
      ensures PagesOk(old(headers), firsts, orders, {}) ==> PagesOk(headers, firsts, orders, {p})
    {
      hide LevelsOk, PagesOk, Level, Base;
      ghost var h := headers;
      var level := Level(size);
      HolesBound(headers, firstFreeHole, lists);
      PushLevels(headers, firstFreeHole, lists, p, size);
      HoleHeader(headers, firstFreeHole, lists, level);
      var first := firstFreeHole[level];
      if first != 0 {
        headers := headers[first := headers[first].(last := p)];
      }
      headers := headers[p := FreeLists.FreeSegment(PAGE_SIZE, 0, first, size)];
      assert headers == Pushed(h, first, p, size);
      firstFreeHole := firstFreeHole[level := p];
      lists := lists[level := [p] + lists[level]];
      PushSizes(h, first, p, size);
      PushedInPage(h, first, p, size);
      if PagesOk(h, firsts, orders, {}) {
        PagesAdd(h, headers, firsts, orders, p);
      }
    }

    /** unmarkSegmentAsFree: out of both lists. */
    method UnmarkSegmentAsFree(p: SegmentPtr, freeLevel: nat) returns (ghost n: nat)
      requires Sound(A()) && p in headers && freeLevel == Level(headers[p].size)
      modifies this
      ensures Sound(A()) && used == old(used[p := headers[p].size]) && pages == old(pages)
            && nextRelativePagePtr == old(nextRelativePagePtr)
      ensures Sizes(headers) == old(Sizes(headers)) - {p} && Free() == HoleTaken(old(Free()), p)
      ensures coalescing ==> Base(p) in old(orders) && n < |old(orders[Base(p)])| && old(orders[Base(p)])[n] == p
      ensures coalescing ==> orders == old(orders[Base(p) := orders[Base(p)][..n] + orders[Base(p)][n + 1..]])
    {
      hide LevelsOk, PagesOk, Sound, Level, Base, Sizes;
      ghost var a := A();
      SoundParts(a);
      UnlinkLevel(p, freeLevel);
      n := 0;
      if coalescing {
        n := RemoveInPage(p);
        PagesForget(headers, firsts, orders, p);
      }
      LevelsForget(headers, firstFreeHole, lists, p);
      ForgetSize(headers, p);
      headers := headers - {p};
      used := used[p := a.headers[p].size];
      if coalescing {
        SamePages(a.orders, orders, Base(p), pages);
      }
      TakenIs(a, p, freeLevel);
      BecomesUsed(a, A(), p);
    }

    /** The per-level half: the neighbours in the list are linked to each other. */
    method UnlinkLevel(p: SegmentPtr, freeLevel: nat)
      requires LevelsOk(headers, firstFreeHole, lists, {}) && 0 !in headers && p in headers
            && freeLevel == Level(headers[p].size)
      modifies `headers, `firstFreeHole, `lists
      ensures LevelsOk(headers, firstFreeHole, lists, {p}) && p in headers && 0 !in headers
      ensures Sizes(headers) == old(Sizes(headers))
      ensures |old(lists)| == LEVEL_NUMBER && lists == old(lists)[freeLevel := LessOne(old(lists)[freeLevel], p)]
      ensures PagesOk(old(headers), firsts, orders, {}) ==> PagesOk(headers, firsts, orders, {})
    {
      hide LevelsOk, Level, ListOk, PagesOk, LessOne;
      ghost var h := headers;
      ghost var n := PlaceInLevel(headers, firstFreeHole, lists, p);
      ghost var list := lists[freeLevel];
      Neighbours(headers, firstFreeHole[freeLevel], list, freeLevel, n);
      UnlinkList(headers, firstFreeHole[freeLevel], list, freeLevel, n);
      UnlinkLevels(headers, firstFreeHole, lists, freeLevel, n);
      UnlinkSizes(headers, p);
      var freeSeg := headers[p];
      if firstFreeHole[freeLevel] == p {
        assert freeSeg.last == 0;
        firstFreeHole := firstFreeHole[freeLevel := freeSeg.next];
      } else {
        assert headers[freeSeg.last].next == p;
        headers := headers[freeSeg.last := headers[freeSeg.last].(next := freeSeg.next)];
      }
      if freeSeg.next != 0 {
        headers := headers[freeSeg.next := headers[freeSeg.next].(last := freeSeg.last)];
      }
      assert headers == Unlinked(h, p);
      assert firstFreeHole
          == old(firstFreeHole)[freeLevel := if n == 0 then freeSeg.next else old(firstFreeHole)[freeLevel]];
      lists := lists[freeLevel := list[..n] + list[n + 1..]];
      LessHole(h, old(firstFreeHole)[freeLevel], list, freeLevel, n);
      if PagesOk(h, firsts, orders, {}) {
        PagesFrame(h, headers, firsts, orders, {});
      }
    }

    /** The per-page half: the walk to the segment, and past it. */
    method RemoveInPage(p: SegmentPtr) returns (ghost n: nat)
      requires coalescing && p in headers && PagesOk(headers, firsts, orders, {})
            && LevelsOk(headers, firstFreeHole, lists, {p}) && 0 !in headers
      modifies `headers, `firsts, `orders
      ensures PagesOk(headers, firsts, orders, {p}) && LevelsOk(headers, firstFreeHole, lists, {p})
      ensures Sizes(headers) == old(Sizes(headers)) && p in headers
      ensures Base(p) in old(orders) && n < |old(orders[Base(p)])| && old(orders[Base(p)])[n] == p
      ensures orders == old(orders[Base(p) := orders[Base(p)][..n] + orders[Base(p)][n + 1..]])
    {
      hide PagesOk, LevelsOk, Base, PageListOk;
      ghost var h := headers;
      n := PlaceInPage(headers, firsts, orders, p);
      var base: nat := Base(p);
      ghost var list := orders[base];
      ThePage(headers, firsts, orders, {}, base);
      FirstInPage(headers, firsts[base], base, list);
      BypassPages(headers, firsts, orders, base, n);
      var offset: nat, lastInPage: SegmentPtr := firsts[base], 0;
      ghost var k := 0;
      while offset < PAGE_SIZE
        invariant headers == h && firsts == old(firsts) && orders == old(orders) && k <= n
        invariant base + offset == list[k] && lastInPage == if k > 0 then list[k - 1] else 0
        invariant k > 0 ==> list[k - 1] in headers
        decreases n - k
      {
        NextInPage(headers, firsts[base], base, list, k);
        var inPage := base + offset;
        if inPage == p {
          SamePlace(headers, firsts[base], base, list, k, n);
          if lastInPage != 0 {
            headers := headers[lastInPage := headers[lastInPage].(nextInPage := headers[inPage].nextInPage)];
          } else {
            firsts := firsts[base := headers[inPage].nextInPage];
          }
          break;
        }
        offset := headers[inPage].nextInPage;
        lastInPage := inPage;
        k := k + 1;
      }
      assert headers == Bypassed(h, list, n);
      assert firsts == old(firsts)[base := if n == 0 then h[p].nextInPage else old(firsts)[base]];
      orders := orders[base := list[..n] + list[n + 1..]];
      BypassedLinks(h, list, n);
      LevelsFrame(h, headers, firstFreeHole, lists, {p});
    }

    /** insertFreeSegmentInPageList */
    method InsertFreeSegmentInPageList(p: SegmentPtr)
      requires coalescing && p in headers && headers[p].nextInPage == PAGE_SIZE && Base(p) in orders
      requires PagesOk(headers, firsts, orders, {p}) && LevelsOk(headers, firstFreeHole, lists, {})
      modifies `headers, `firsts, `orders
      ensures PagesOk(headers, firsts, orders, {}) && LevelsOk(headers, firstFreeHole, lists, {})
      ensures orders.Keys == old(orders.Keys) && Sizes(headers) == old(Sizes(headers))
    {
      hide PagesOk, LevelsOk, Base, PageListOk;
      ghost var h, list := headers, orders[Base(p)];
      ThePage(headers, firsts, orders, {p}, Base(p));
      FirstInPage(headers, firsts[Base(p)], Base(p), list);
      var base: nat := Base(p);
      var freeSegOffset: nat, segmentOffset: nat := p - base, firsts[base];
      ghost var n := 0;
      if freeSegOffset < segmentOffset && segmentOffset < PAGE_SIZE {
        headers := headers[p := headers[p].(nextInPage := segmentOffset)];
        firsts := firsts[base := freeSegOffset];
        BelongsFirst(h, segmentOffset, base, list, p);
      } else if segmentOffset < PAGE_SIZE {
        n := InsertInPage(p, base, segmentOffset, list);
        assert firsts == old(firsts)[base := old(firsts)[base]];
      } else {
        firsts := firsts[base := freeSegOffset];
        assert headers == headers[p := headers[p].(nextInPage := PAGE_SIZE)];
      }
      InsertPages(h, old(firsts), orders, n, p, headers[p].nextInPage);
      orders := orders[base := list[..n] + [p] + list[n..]];
      InsertedLinks(h, base, list, n, p, headers[p].nextInPage);
      LevelsFrame(h, headers, firstFreeHole, lists, {});
    }

    /** The loop that finds the spot behind the free segments with smaller offsets. */
    method InsertInPage(p: SegmentPtr, base: nat, first: nat, ghost list: seq<SegmentPtr>) returns (ghost n: nat)
      requires p in headers && Base(p) == base && PageListOk(headers, first, base, list) && p !in list
      requires first < PAGE_SIZE && first <= p - base
      modifies `headers
      ensures 0 < n <= |list| && p in headers && Belongs(list, n, p) && OffsetTo(base, headers[p].nextInPage, list, n)
      ensures headers == Inserted(old(headers), base, list, n, p, headers[p].nextInPage)
    {
      hide PageListOk, Base;
      FirstInPage(headers, first, base, list);
      ghost var k := 0;
      var freeSegOffset: nat, segmentOffset := p - base, first;
      while true
        invariant headers == old(headers) && k < |list| && base + segmentOffset == list[k] && list[k] in headers
              && list[k] < p
        decreases |list| - k
      {
        NextInPage(headers, first, base, list, k);
        var previous := headers[base + segmentOffset];
        if previous.nextInPage > freeSegOffset {
          BelongsBehind(headers, first, base, list, k, p);
          assert segmentOffset < freeSegOffset;
          headers := headers[p := headers[p].(nextInPage := previous.nextInPage)];
          headers := headers[base + segmentOffset := headers[base + segmentOffset].(nextInPage := freeSegOffset)];
          return k + 1;
        }
        assert list[k + 1] in list;
        segmentOffset := previous.nextInPage;
        k := k + 1;
      }
    }

    /** A freed segment [p, p + size) in the walk over its page, at place c of the list: it has grown out of
        [p0, p0 + size0), to the left. `used0` and `holes0` are what was used and free before. */
    ghost predicate Walking(used0: Blocks, holes0: Holes, p0: SegmentPtr, size0: nat, c: nat, p: SegmentPtr, size: nat)
      reads this
    {
      var free0 := holes0.free;
      && coalescing && Sound(A()) && p != 0 && p in used && used[p] == size
      && Base(p) == Base(p0) && p <= p0 && p0 + size0 == p + size
      && used == (used0 - {p0})[p := size] && (p == p0 || p !in used0)
      && (forall q :: q in Sizes(headers) ==> q in free0 && Sizes(headers)[q] == free0[q])
      && (forall q :: q in free0 ==> q !in used0)
      && Base(p0) in orders && c <= |orders[Base(p0)]|
      && (Settled(free0, Base(p0)) ==> Passed(Sizes(headers), orders[Base(p0)], c, p, size))
      && Joining(holes0, A(), p0, size0, c, p)
    }

    /** coalesceFreeSegment: merges with free neighbours that start in the same page. */
    method CoalesceFreeSegment(p0: SegmentPtr, size0: nat) returns (p: SegmentPtr, size: nat)
      requires coalescing && Sound(A()) && p0 in used && p0 != 0 && used[p0] == size0
      modifies this
      ensures Sound(A()) && pages == old(pages) && nextRelativePagePtr == old(nextRelativePagePtr)
      ensures p != 0 && p in used && used[p] == size && Base(p) == Base(p0) && p <= p0 && p0 + size0 <= p + size
      ensures used == (old(used) - {p0})[p := size] && (p == p0 || p !in old(used))
      ensures forall q :: q in Sizes(headers) ==>
            q in old(Sizes(headers)) && Sizes(headers)[q] == old(Sizes(headers))[q]
      ensures old(Settled(Sizes(headers), Base(p0))) ==> Apart(Sizes(headers), Base(p0), p, size)
      ensures p == LeftEnd(old(Free()).free, p0) && size == p0 - p + size0 + RightSize(old(Free()).free, p0, size0)
      ensures Free() == NeighboursTaken(old(Free()), p0, size0)
    {
      hide Sound, Sizes, Settled, Apart, Base, PageListOk, Level, LeftEnd, RightSize, NeighboursTaken, Joining;
      p, size := p0, size0;
      ghost var c: nat, free0, used0 := 0, Sizes(headers), used;
      ghost var a0, holes0 := A(), Free();
      PageOfUsed(A(), p0);
      FreeNotUsed(A());
      FreshFree(A(), p0);
      FirstInPage(headers, firsts[Base(p0)], Base(p0), orders[Base(p0)]);
      var base: nat := Base(p0);
      var segmentOffset: nat := firsts[base];
      if segmentOffset >= PAGE_SIZE {
        NothingThere(A(), base, p, size);
        NothingJoined(a0, p0, size0);
        return;
      }
      JoinStart(A(), p0, size0);
      while true
        invariant Walking(used0, holes0, p0, size0, c, p, size)
        invariant pages == old(pages) && nextRelativePagePtr == old(nextRelativePagePtr)
        invariant c < |orders[base]| && base + segmentOffset == orders[base][c]
        decreases |orders[base]| - c
      {
        var inPage: nat := base + segmentOffset;
        WalkStep(A(), base, c);
        var inPageSize, nextOffset := headers[inPage].size, headers[inPage].nextInPage;
        assert segmentOffset < nextOffset;
        if inPage + inPageSize == p {
          MergeLeft(inPage, used0, holes0, p0, size0, c, p, size);
          p := inPage;
          size := size + inPageSize;
        } else if p + size == inPage {
          JoinedRight(a0, A(), p0, size0, c, p);
          MergeRight(inPage, used0, holes0, p0, size0, c, p, size);
          size := size + inPageSize;
          return;
        } else {
          PassedOne(Sizes(headers), orders[base], c, p, size);
          JoinPast(holes0, A(), p0, size0, c, p);
          c := c + 1;
        }
        segmentOffset := nextOffset;
        if segmentOffset >= PAGE_SIZE {
          if Settled(free0, base) {
            PassedAll(A(), base, p, size);
          }
          JoinedAll(a0, A(), p0, size0, p);
          return;
        }
      }
    }

    /** Left-collation: the free segment that ends where the freed one starts. */
    method MergeLeft(inPage: SegmentPtr, ghost used0: Blocks, ghost holes0: Holes, ghost p0: SegmentPtr,
        ghost size0: nat, ghost c: nat, p: SegmentPtr, size: nat)
      requires Walking(used0, holes0, p0, size0, c, p, size) && c < |orders[Base(p0)]| && inPage == orders[Base(p0)][c]
      requires inPage in headers && inPage + headers[inPage].size == p
      modifies this
      ensures Walking(used0, holes0, p0, size0, c, inPage, old(headers[inPage].size) + size)
      ensures orders[Base(p0)] == old(orders[Base(p0)][..c] + orders[Base(p0)][c + 1..])
      ensures pages == old(pages) && nextRelativePagePtr == old(nextRelativePagePtr)
    {
      hide Sound, Sizes, Settled, Apart, Base, PageListOk, Level, Passed, HoleTaken, Joining;
      ghost var a, base, list, free0 := A(), Base(p0), orders[Base(p0)], holes0.free;
      WalkStep(a, base, c);
      ghost var n := UnmarkSegmentAsFree(inPage, Level(headers[inPage].size));
      RemovedAt(a, base, list, n, c);
      if Settled(free0, base) {
        PassedLeft(free0, Sizes(a.headers), Sizes(headers), base, list, c, p, size);
      }
      JoinUsed(A(), inPage, p);
      used := Merge(used, inPage, p);
      JoinLeft(holes0, a, A(), p0, size0, c, p);
    }

    /** Right-collation: the free segment that starts where the freed one ends. */
    method MergeRight(inPage: SegmentPtr, ghost used0: Blocks, ghost holes0: Holes, ghost p0: SegmentPtr,
        ghost size0: nat, ghost c: nat, p: SegmentPtr, size: nat)
      requires Walking(used0, holes0, p0, size0, c, p, size) && c < |orders[Base(p0)]| && inPage == orders[Base(p0)][c]
      requires inPage in headers && p + size == inPage
      modifies this
      ensures Sound(A()) && pages == old(pages) && nextRelativePagePtr == old(nextRelativePagePtr)
      ensures p in used && used[p] == size + old(headers[inPage].size) && used == (used0 - {p0})[p := used[p]]
      ensures var free0 := holes0.free;
              && (forall q :: q in Sizes(headers) ==> q in free0 && Sizes(headers)[q] == free0[q])
              && (Settled(free0, Base(p0)) ==> Apart(Sizes(headers), Base(p0), p, used[p]))
      ensures Free() == HoleTaken(old(Free()), inPage)
    {
      hide Sound, Sizes, Settled, Apart, Base, PageListOk, Level, Passed, HoleTaken, Joining;
      ghost var a, base, list, free0 := A(), Base(p0), orders[Base(p0)], holes0.free;
      WalkStep(a, base, c);
      ghost var n := UnmarkSegmentAsFree(inPage, Level(headers[inPage].size));
      RemovedAt(a, base, list, n, c);
      if Settled(free0, base) {
        PassedRight(free0, a, A(), base, list, c, p, size);
      }
      JoinUsed(A(), p, inPage);
      used := Merge(used, p, inPage);
    }

    /** markSegmentAsFree: a used segment becomes free, merged with its free neighbours in the page if asked to. */
    method MarkSegmentAsFree(p0: SegmentPtr, size0: nat, shouldCoalesce: bool)
      requires Sound(A()) && p0 in used && p0 != 0 && used[p0] == AlignSize(size0)
      modifies this
      ensures Sound(A()) && used == old(used) - {p0} && pages == old(pages)
            && nextRelativePagePtr == old(nextRelativePagePtr)
      ensures !(shouldCoalesce && coalescing) ==> Sizes(headers) == old(Sizes(headers))[p0 := AlignSize(size0)]
      ensures shouldCoalesce && coalescing && old(Settled(Sizes(headers), Base(p0))) ==>
            Settled(Sizes(headers), Base(p0))
      ensures Free() == HoleFreed(old(Free()), p0, AlignSize(size0), shouldCoalesce && coalescing)
    {
      hide Sound, Sizes, Settled, Apart, Base, HolePushed, NeighboursTaken, LeftEnd, RightSize;
      var p, size := p0, AlignSize(size0);
      ghost var free := Sizes(headers);
      if shouldCoalesce && coalescing {
        p, size := CoalesceFreeSegment(p, size);
      }
      ghost var a := A();
      LinkFree(p, size);
      if shouldCoalesce && coalescing && Settled(free, Base(p0)) {
        SettledLess(free, Sizes(a.headers), Base(p0));
        FreshFree(a, p);
        SettledAdd(Sizes(a.headers), Base(p0), p, size);
      }
    }

    /** freeSegment */
    method FreeSegment(p: SegmentPtr, size: nat)
      requires Valid() && p in Live() && Live()[p] == AlignSize(size)
      modifies this
      ensures Valid() && Live() == old(Live()) - {p} && pages == old(pages)
      ensures coalescing && old(Settled(Sizes(headers), Base(p))) ==> Settled(Sizes(headers), Base(p))
      ensures Free() == HoleFreed(old(Free()), p, AlignSize(size), coalescing)
      ensures nextRelativePagePtr == old(nextRelativePagePtr)
    {
      hide Sound, Sizes, Settled, Base, HoleFreed;
      MarkSegmentAsFree(p, size, true);
    }

    // ----- allocation from holes -----

    /** getFreeSegmentPtrFromHoles at one level: the first hole, if it is large enough; what it has to spare is free
        again. */
    method FromLevel(size: nat, level: nat) returns (p: SegmentPtr)
      requires Sound(A()) && level < LEVEL_NUMBER && size > 0 && Aligned(size)
      modifies this
      ensures Sound(A()) && pages == old(pages) && nextRelativePagePtr == old(nextRelativePagePtr)
      ensures p == old(HoleAt(headers, firstFreeHole, level, size))
      ensures if p == 0 then used == old(used) && headers == old(headers) && firstFreeHole == old(firstFreeHole)
              else p in old(headers) && old(headers[p].size) >= size && used == old(used)[p := size]
      ensures if p == 0 then Free() == old(Free())
              else p in old(Free()).free && Free() == HoleUsed(old(Free()), p, size)
    {
      hide Sound, Sizes, Level, HoleUsed;
      ghost var a := A();
      SoundParts(a);
      HolesBound(headers, firstFreeHole, lists);
      HoleHeader(headers, firstFreeHole, lists, level);
      p := firstFreeHole[level];
      if p == 0 {
        return;
      }
      var holeSize := headers[p].size;
      if holeSize < size {
        return 0;
      }
      TakeHole(p, size, level);
    }

    method TakeHole(p: SegmentPtr, size: nat, level: nat)
      requires Sound(A()) && p in headers && level == Level(headers[p].size) && 0 < size <= headers[p].size
            && Aligned(size)
      modifies this
      ensures Sound(A()) && pages == old(pages) && nextRelativePagePtr == old(nextRelativePagePtr)
      ensures used == old(used)[p := size]
      ensures p in old(Free()).free && Free() == HoleUsed(old(Free()), p, size)
    {
      hide Sound, Sizes, Level, Aligned, HolePushed, HoleTaken;
      ghost var a := A();
      SizeOfHeader(a, p);
      KeysOfSizes(headers);
      var holeSize := headers[p].size;
      ghost var n := UnmarkSegmentAsFree(p, level);
      if holeSize > size {
        CutRest(A(), p, size);
        used := Split(used, p, size);
        MarkSegmentAsFree(p + size, holeSize - size, false);
        CutAndFree(a.used, p, holeSize, size);
      }
    }

    method FromHoles(size: nat) returns (p: SegmentPtr)
      requires Sound(A()) && size > 0 && Aligned(size)
      modifies this
      ensures Sound(A()) && pages == old(pages) && nextRelativePagePtr == old(nextRelativePagePtr)
      ensures p == old(FirstFit(headers, firstFreeHole, size))
      ensures if p == 0 then used == old(used) && headers == old(headers)
              else p in old(headers) && old(headers[p].size) >= size && used == old(used)[p := size]
      ensures if p == 0 then Free() == old(Free())
              else p in old(Free()).free && Free() == HoleUsed(old(Free()), p, size)
    {
      hide Sound, Sizes, HoleUsed;
      SoundParts(A());
      HolesBound(headers, firstFreeHole, lists);
      HoleHeader(headers, firstFreeHole, lists, Level(size));
      var freeLevel := Level(size);
      if firstFreeHole[freeLevel] != 0 {
        p := FromLevel(size, freeLevel);
        if p != 0 {
          return;
        }
      }
      p := FromLevel(size, LEVEL_OTHER);
    }

    // ----- allocation from new pages -----

    /** getFreeRelativePages of the volatile allocator: at the next page, or, if the run would reach the end of
        an area, at the start of the next area; what is skipped is lost. */
    method VolatilePages(asked: nat) returns (start: nat)
      requires !coalescing && Sound(A()) && asked > 0 && asked * PAGE_SIZE < AREA_SIZE
      modifies this
      ensures start == RunStart(false, old(nextRelativePagePtr), asked)
      ensures A() == old(A()).(next := start + asked * PAGE_SIZE, used := old(used)[start := asked * PAGE_SIZE],
                  pages := old(pages) + Run(start, asked))
      ensures Sound(A()) && start !in old(used) && InOneArea(start, asked) && old(nextRelativePagePtr) <= start
      ensures old(nextRelativePagePtr) == 0 ==> start == 0
    {
      hide Sound, InOneArea, RunStart;
      start := nextRelativePagePtr;
      var end := nextRelativePagePtr + PAGE_SIZE * asked;
      if nextRelativePagePtr / AREA_SIZE != end / AREA_SIZE {
        var nextAreaIdx := end / AREA_SIZE;
        start := nextAreaIdx * AREA_SIZE;
      }
      NextArea(A(), end);
      SameArea(nextRelativePagePtr, asked, end);
      RunPlace(false, nextRelativePagePtr, asked, end);
      AddPages(A(), start, asked, firsts, orders);
      nextRelativePagePtr := start + PAGE_SIZE * asked;
      used := used[start := asked * PAGE_SIZE];
      pages := pages + Run(start, asked);
    }

    /** getFreeRelativePages of the persistent allocator: at least four pages, or a whole area in a large document;
        the gap in front of a new area becomes a free segment, and no other changes. */
    method PersistentPages(asked: nat) returns (start: nat, alloced: nat)
      requires coalescing && Sound(A()) && asked > 0 && asked * PAGE_SIZE < AREA_SIZE
      modifies this
      ensures alloced == RunLength(old(nextRelativePagePtr), asked) && asked <= alloced
      ensures start == RunStart(true, old(nextRelativePagePtr), alloced)
      ensures nextRelativePagePtr == start + alloced * PAGE_SIZE && old(nextRelativePagePtr) <= start
      ensures pages == old(pages) + Obtained(true, old(nextRelativePagePtr), start, alloced)
      ensures Sound(A()) && start !in old(used) && used == old(used)[start := alloced * PAGE_SIZE]
      ensures Free() == WithGap(old(Free()), true, old(nextRelativePagePtr), start)
      ensures InOneArea(start, alloced) && (start != old(nextRelativePagePtr) ==> start % AREA_SIZE == 0)
      ensures old(nextRelativePagePtr) == 0 ==> start == 0
    {
      hide Sound, Sizes, InOneArea, RunStart, HolePushed;
      var minimumNumber := 4;
      if nextRelativePagePtr > 0x100_0000 {
        minimumNumber := AREA_SIZE / PAGE_SIZE;
      }
      alloced := asked;
      if alloced < minimumNumber {
        alloced := minimumNumber;
      }
      assert alloced * PAGE_SIZE <= AREA_SIZE;
      var firstUsed, last := nextRelativePagePtr, nextRelativePagePtr + PAGE_SIZE * (alloced - 1);
      start := firstUsed;
      if firstUsed / AREA_SIZE != last / AREA_SIZE {
        start := last / AREA_SIZE * AREA_SIZE;
      }
      AreaOf(A(), last, alloced);
      SameArea(firstUsed, alloced, last);
      RunPlace(true, firstUsed, alloced, last);
      var gap := (start - firstUsed) / PAGE_SIZE;
      ghost var a := A();
      NewPages(firstUsed, gap + alloced);
      KeepGap(firstUsed, start, gap, alloced);
      FreshRun(a, firstUsed, start, alloced);
      assert used == a.used[start := alloced * PAGE_SIZE];
    }

    /** The end of getFreeRelativePages of the persistent allocator: the gap in front of a new area is marked as free.
        */
    method KeepGap(firstUsed: nat, start: nat, gap: nat, alloced: nat)
      requires coalescing && Sound(A()) && alloced > 0 && start == firstUsed + gap * PAGE_SIZE
            && (gap > 0 ==> firstUsed != 0)
      requires firstUsed in used && used[firstUsed] == (gap + alloced) * PAGE_SIZE
      modifies this
      ensures Sound(A()) && used == (old(used) - {firstUsed})[start := alloced * PAGE_SIZE]
      ensures Free() == WithGap(old(Free()), true, firstUsed, start)
      ensures pages == old(pages) && nextRelativePagePtr == old(nextRelativePagePtr)
    {
      hide Sound, Sizes, HolePushed;
      ghost var a := A();
      if start != firstUsed {
        CutGap(a, firstUsed, gap, alloced);
        GapUsed(a.used - {firstUsed}, firstUsed, gap, alloced);
        assert a.used == (a.used - {firstUsed})[firstUsed := (gap + alloced) * PAGE_SIZE];
        used := Split(used, firstUsed, gap * PAGE_SIZE);
        FreeGap(A(), firstUsed, gap);
        MarkSegmentAsFree(firstUsed, start - firstUsed, false);
      }
    }

    /** All pages up to the new end get a PageInfo without free segments. */
    method NewPages(from: nat, n: nat)
      requires coalescing && Sound(A()) && from == nextRelativePagePtr && n > 0
      modifies this
      ensures Sound(A()) && headers == old(headers) && used == old(used)[from := n * PAGE_SIZE] && from !in old(used)
      ensures Free() == old(Free())
      ensures pages == old(pages) + Run(from, n) && nextRelativePagePtr == from + n * PAGE_SIZE
    {
      hide Sound, MorePages, Run;
      ghost var a := A();
      NoPage(a, from);
      MoreNone(firsts, orders, from);
      var i := 0;
      while i < n
        invariant 0 <= i <= n && A() == a.(firsts := firsts, orders := orders)
        invariant MorePages(a.firsts, a.orders, firsts, orders, from, i)
      {
        MoreOne(a.firsts, a.orders, firsts, orders, from, i);
        firsts := firsts[from + i * PAGE_SIZE := FIRST_UNSET];
        orders := orders[from + i * PAGE_SIZE := []];
        i := i + 1;
      }
      AddPages(a, from, n, firsts, orders);
      nextRelativePagePtr := from + n * PAGE_SIZE;
      used := used[from := n * PAGE_SIZE];
      pages := pages + Run(from, n);
    }

    method GetFreeRelativePages(asked: nat) returns (start: nat, alloced: nat)
      requires Sound(A()) && asked > 0 && asked * PAGE_SIZE < AREA_SIZE
      modifies this
      ensures alloced == Given(coalescing, old(nextRelativePagePtr), asked) && asked <= alloced
      ensures start == RunStart(coalescing, old(nextRelativePagePtr), alloced)
      ensures nextRelativePagePtr == start + alloced * PAGE_SIZE
      ensures pages == old(pages) + Obtained(coalescing, old(nextRelativePagePtr), start, alloced)
      ensures Sound(A()) && start !in old(used) && used == old(used)[start := alloced * PAGE_SIZE]
      ensures Free() == WithGap(old(Free()), coalescing, old(nextRelativePagePtr), start)
      ensures old(pages) < pages && (if old(pages) == {} then start == 0 else start != 0)
      ensures !coalescing ==> headers == old(headers)
    {
      hide Sound, Run, RunStart, InOneArea, HolePushed;
      ghost var a := A();
      EmptyDocument(a);
      if coalescing {
        start, alloced := PersistentPages(asked);
      } else {
        start := VolatilePages(asked);
        alloced := asked;
      }
      ObtainedNew(a, start, alloced);
    }

    /** getFreeSegmentPtrFromNewPages. In an empty document the first 32 bytes are reserved; then, if the request
        fills its pages to the last byte, what is marked as free behind it has no size and lies behind the pages. */
    method FromNewPages(size0: nat) returns (ptr: SegmentPtr, outcome: Outcome)
      requires Valid() && 0 < size0 <= SEGMENT_SIZE_MAX && Aligned(size0)
      modifies this
      ensures outcome == if coalescing && FillsFirstPages(old(A()), size0) then Bug else Done
      ensures outcome.Done? ==> (Valid() <==> !FillsFirstPages(old(A()), size0))
      ensures outcome.Done? ==>
            old(pages) < pages && ptr != 0 && ptr !in old(used) && Live() == old(Live())[ptr := size0]
      ensures outcome.Done? && old(pages) == {} ==> ptr == UNIT
      ensures outcome.Done? ==>
            ptr == NewPlace(coalescing, old(nextRelativePagePtr), size0)
            && Free() == OnNewPages(old(Free()), coalescing, old(nextRelativePagePtr), size0)
      ensures nextRelativePagePtr == PagesEnd(coalescing, old(nextRelativePagePtr), size0)
      ensures pages == old(pages) + NewPagesOf(coalescing, old(nextRelativePagePtr), size0)
    {
      hide Sound, Sizes, Aligned, RunStart, Given, HolePushed, WithGap, Obtained, NewPlace, OnNewPages, PagesEnd,
        NewPagesOf,
           FillsFirstPages;
      ghost var a := A();
      EmptyDocument(a);
      var isDocumentEmpty, size := nextRelativePagePtr == 0, size0;
      if isDocumentEmpty {
        size := size + UNIT;
      }
      var pageNumber := size / PAGE_SIZE;
      if size % PAGE_SIZE != 0 {
        pageNumber := pageNumber + 1;
      }
      assert pageNumber == Needed(nextRelativePagePtr, size0);
      hide Needed;
      PagesNeeded(nextRelativePagePtr, size0);
      var alloced;
      ptr, alloced := GetFreeRelativePages(pageNumber);
      OnTheRun(HolesOf(a), coalescing, a.next, size0, ptr, alloced);
      FirstRunFull(a, size0, alloced);
      UnitMore(size0);
      ptr, outcome := UsePages(ptr, size, alloced, isDocumentEmpty);
      assert used == if a.pages == {} then a.used[0 := UNIT][ptr := size0] else a.used[ptr := size0];
      ReservedOnce(a, used, pages, ptr, size0);
    }

    /** The second half of getFreeSegmentPtrFromNewPages: the run is cut into the reserved bytes, if the document was
        empty, the segment, and what is left. */
    method UsePages(start: nat, size0: nat, alloced: nat, isDocumentEmpty: bool)
        returns (ptr: SegmentPtr, outcome: Outcome)
      requires Sound(A()) && start in used && used[start] == alloced * PAGE_SIZE && isDocumentEmpty == (start == 0)
      requires 0 < size0 <= alloced * PAGE_SIZE && Aligned(size0)
      requires isDocumentEmpty ==> size0 > UNIT && (!coalescing ==> headers == map[])
      modifies this
      ensures pages == old(pages) && nextRelativePagePtr == old(nextRelativePagePtr)
      ensures ptr == if isDocumentEmpty then UNIT else start
      ensures used == if isDocumentEmpty then old(used)[0 := UNIT][UNIT := size0 - UNIT] else old(used)[start := size0]
      ensures var full := isDocumentEmpty && size0 == alloced * PAGE_SIZE;
              outcome == (if full && coalescing then Bug else Done) && (Sound(A()) <==> !full || coalescing)
      ensures outcome.Done? ==>
            Free() == if isDocumentEmpty || size0 < alloced * PAGE_SIZE
                      then HolePushed(old(Free()), start + size0, alloced * PAGE_SIZE - size0) else old(Free())
    {
      hide Sound, Sizes, Aligned, HolePushed;
      var size := size0;
      ptr := start;
      if isDocumentEmpty {
        CutReserved(A(), alloced * PAGE_SIZE);
        used := Split(used, 0, UNIT);
        ptr := UNIT;
        size := size - UNIT;
        UnitMore(size0);
      }
      var remains := alloced * PAGE_SIZE - size;
      outcome := Done;
      if remains != 0 {
        if isDocumentEmpty {
          remains := remains - UNIT;
        }
        outcome := MarkRemains(ptr, size, remains);
      }
    }

    /** The end of getFreeSegmentPtrFromNewPages: what is left of the pages becomes free. */
    method MarkRemains(ptr: SegmentPtr, size: nat, remains: nat) returns (outcome: Outcome)
      requires Sound(A()) && ptr in used && ptr != 0 && used[ptr] == size + remains && size > 0 && Aligned(size)
      requires remains == 0 && !coalescing ==> headers == map[]
      modifies this
      ensures outcome == if remains == 0 && coalescing then Bug else Done
      ensures Sound(A()) <==> remains > 0 || coalescing
      ensures used == old(used)[ptr := size] && pages == old(pages) && nextRelativePagePtr == old(nextRelativePagePtr)
      ensures outcome.Done? ==> Free() == HolePushed(old(Free()), ptr + size, remains)
    {
      hide Sound, Sizes, Aligned, HolePushed;
      ghost var a := A();
      outcome := Done;
      if remains == 0 {
        if coalescing {
          return Bug;
        }
        SoundParts(a);
        PushFree(ptr + size, AlignSize(0));
        EmptySegment(A(), ptr + size);
      } else {
        CutRest(a, ptr, size);
        used := Split(used, ptr, size);
        MarkSegmentAsFree(ptr + size, remains, false);
        assert used == a.used[ptr := size];
      }
    }

    /** getFreeSegmentPtr, for a request of at least one byte. */
    method GetFreeSegmentPtr(size0: nat) returns (ptr: SegmentPtr, outcome: Outcome)
      requires Valid() && size0 > 0
      modifies this
      ensures outcome.TooLarge? <==> size0 > SEGMENT_SIZE_MAX
      ensures outcome.TooLarge? ==> unchanged(this)
      ensures outcome.Bug? <==> size0 <= SEGMENT_SIZE_MAX && coalescing && FillsFirstPages(old(A()), AlignSize(size0))
      ensures outcome.Done? ==> (Valid() <==> !FillsFirstPages(old(A()), AlignSize(size0)))
      ensures outcome.Done? ==>
            old(pages) <= pages && ptr != 0 && ptr !in old(used) && Live() == old(Live())[ptr := AlignSize(size0)]
      ensures outcome.Done? && old(pages) == {} ==> ptr == UNIT && pages != {}
      ensures var (next, size, hole) := (old(nextRelativePagePtr), AlignSize(size0),
                                         old(FirstFit(headers, firstFreeHole, AlignSize(size0))));
              size0 <= SEGMENT_SIZE_MAX ==>
                if hole != 0 then
                  && outcome.Done? && ptr == hole && pages == old(pages) && nextRelativePagePtr == next
                  && hole in old(Free()).free && Free() == HoleUsed(old(Free()), hole, size)
                else
                  && pages == old(pages) + NewPagesOf(coalescing, next, size)
                  && nextRelativePagePtr == PagesEnd(coalescing, next, size)
                  && (outcome.Done? ==>
                        ptr == NewPlace(coalescing, next, size)
                        && Free() == OnNewPages(old(Free()), coalescing, next, size))
    {
      hide Sound, Sizes, AlignSize, FirstFit, NewPlace, OnNewPages, NewPagesOf, PagesEnd, HoleUsed;
      if size0 > SEGMENT_SIZE_MAX {
        return 0, TooLarge;
      }
      ghost var a := A();
      AlignedRequest(size0);
      var size := AlignSize(size0);
      ptr := FromHoles(size);
      if ptr == 0 {
        ptr, outcome := FromNewPages(size);
      } else {
        EmptyDocument(a);
        SizeOfHeader(a, ptr);
        outcome := Done;
      }
    }

    /** createVolatileDocument: the first allocation is the DocumentHead of 40 bytes. */
    constructor WithDocumentHead(coalescing: bool)
      ensures Valid() && pages != {} && this.coalescing == coalescing
      ensures Live() == map[UNIT := 64] && nextRelativePagePtr == (if coalescing then 4 else 1) * PAGE_SIZE
      ensures Free() == HolePushed(NO_HOLES, UNIT + 64, nextRelativePagePtr - (UNIT + 64))
    {
      hide NewPlace, OnNewPages, NewPagesOf, PagesEnd, HoleUsed, HolePushed, Sound, Reserved, FirstFit, FillsFirstPages,
           AlignSize;
      this.coalescing := coalescing;
      nextRelativePagePtr, headers, firstFreeHole, firsts := 0, map[], [0, 0, 0, 0, 0], map[];
      lists, orders, used, pages := [[], [], [], [], []], map[], map[], {};
      new;
      NothingYet(coalescing);
      assert A() == NoPages(coalescing);
      var documentHeadPtr, outcome := GetFreeSegmentPtr(40);
      BehindTheHead(coalescing);
      assert documentHeadPtr == UNIT;
    }
  }

  /** Conservation fails for a first request that fills its page: after it the invariant does not hold. */
  method FirstRequestFillsPage() returns (allocator: DocumentAllocator)
    ensures fresh(allocator) && !allocator.Valid()
  {
    hide Sound, Sizes;
    allocator := new DocumentAllocator(false);
    var ptr, outcome := allocator.GetFreeSegmentPtr(PAGE_SIZE - UNIT);
  }
}
