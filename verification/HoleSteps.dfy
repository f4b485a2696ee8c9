/** The free segments as the two list structures hold them, and what each step of the allocator makes of them. */
module HoleSteps {
  import opened Units
  import opened Tiles
  import opened FreeLists
  import opened PageLists
  import opened Arena

  /** The sizes of all free segments, and their order in the list of each level. */
  datatype Holes = Holes(free: Blocks, lists: seq<seq<SegmentPtr>>)

  const NO_HOLES := Holes(map[], [[], [], [], [], []])

  /** A document without pages. */
  ghost function NoPages(coalescing: bool): Arena {
    Arena(coalescing, 0, map[], [0, 0, 0, 0, 0], map[], NO_HOLES.lists, map[], map[], {})
  }

  lemma NothingYet(coalescing: bool)
    ensures var a := NoPages(coalescing);
            && Sound(a) && Reserved(a) && HolesOf(a) == NO_HOLES && FirstFit(a.headers, a.holes, 64) == 0
            && AlignSize(40) == 64 && !FillsFirstPages(a, 64)
  {
    hide Level;
  }

  ghost function HolesOf(a: Arena): Holes {
    Holes(Sizes(a.headers), a.lists)
  }

  ghost function LessOne(list: seq<SegmentPtr>, p: SegmentPtr): seq<SegmentPtr> {
    if list == [] then []
    else if list[0] == p then list[1..]
    else [list[0]] + LessOne(list[1..], p)
  }

  /** A new free segment is the first of its level. */
  ghost function HolePushed(s: Holes, p: SegmentPtr, size: nat): Holes {
    var l := Level(size);
    Holes(s.free[p := size], if l < |s.lists| then s.lists[l := [p] + s.lists[l]] else s.lists)
  }

  /** A free segment leaves the list of its level; the others keep their order. */
  ghost function HoleTaken(s: Holes, p: SegmentPtr): Holes {
    if p !in s.free then s
    else
      var l := Level(s.free[p]);
      Holes(s.free - {p}, if l < |s.lists| then s.lists[l := LessOne(s.lists[l], p)] else s.lists)
  }

  /** A hole is used from its start; what it has to spare is a new free segment. */
  ghost function HoleUsed(s: Holes, p: SegmentPtr, size: nat): Holes
    requires p in s.free
  {
    if s.free[p] > size then HolePushed(HoleTaken(s, p), p + size, s.free[p] - size) else HoleTaken(s, p)
  }

  // ----- joining a freed segment with its neighbours -----

  ghost predicate EndsAt(free: Blocks, q: SegmentPtr, p: SegmentPtr) {
    StartsIn(free, Base(p), q) && q + free[q] == p
  }

  /** Where the freed segment starts in the end: at its left neighbour, if that is free and starts in the same page. */
  ghost function LeftEnd(free: Blocks, p: SegmentPtr): SegmentPtr {
    if exists q: SegmentPtr :: EndsAt(free, q, p) then
      var q: SegmentPtr :| EndsAt(free, q, p);
      q
    else p
  }

  /** The size of its right neighbour, if that is free and starts in the same page. */
  ghost function RightSize(free: Blocks, p: SegmentPtr, size: nat): nat {
    if StartsIn(free, Base(p), p + size) then free[p + size] else 0
  }

  /** The free segments without both neighbours. */
  ghost function NeighboursTaken(s: Holes, p: SegmentPtr, size: nat): Holes {
    var t := if LeftEnd(s.free, p) != p then HoleTaken(s, LeftEnd(s.free, p)) else s;
    if StartsIn(s.free, Base(p), p + size) then HoleTaken(t, p + size) else t
  }

  /** A segment has become free. */
  ghost function HoleFreed(s: Holes, p: SegmentPtr, size: nat, join: bool): Holes {
    if !join then HolePushed(s, p, size)
    else
      var l := LeftEnd(s.free, p);
      HolePushed(NeighboursTaken(s, p, size), l, (if l <= p then p - l else 0) + size + RightSize(s.free, p, size))
  }

  // ----- new pages -----

  /** Where a run of n pages starts: at the next page, unless the run would leave its area. A volatile document moves on
      already when the run would end with the area. */
  function RunStart(coalescing: bool, next: nat, n: nat): nat {
    if next % AREA_SIZE + n * PAGE_SIZE < AREA_SIZE || (coalescing && next % AREA_SIZE + n * PAGE_SIZE == AREA_SIZE)
    then next
    else (next / AREA_SIZE + 1) * AREA_SIZE
  }

  /** A persistent document keeps the gap in front of a new area as a free segment. */
  ghost function WithGap(s: Holes, coalescing: bool, next: nat, start: nat): Holes {
    if coalescing && start > next then HolePushed(s, next, start - next) else s
  }

  /** The place of a request that no hole is large enough for. */
  function NewPlace(coalescing: bool, next: nat, size: nat): SegmentPtr {
    if next == 0 then UNIT else RunStart(coalescing, next, Given(coalescing, next, Needed(next, size)))
  }

  /** The pages a run obtains: a persistent document obtains those of the gap too, a volatile one skips them. */
  ghost function Obtained(coalescing: bool, next: nat, start: nat, n: nat): set<nat> {
    if coalescing && next <= start then Run(next, (start - next) / PAGE_SIZE + n) else Run(start, n)
  }

  /** The first address behind the pages that a request gets. */
  function PagesEnd(coalescing: bool, next: nat, size: nat): nat {
    var n := Given(coalescing, next, Needed(next, size));
    RunStart(coalescing, next, n) + n * PAGE_SIZE
  }

  ghost function NewPagesOf(coalescing: bool, next: nat, size: nat): set<nat> {
    var n := Given(coalescing, next, Needed(next, size));
    Obtained(coalescing, next, RunStart(coalescing, next, n), n)
  }

  /** What is left of the new pages is free, even if that is nothing in the first pages of a document. */
  ghost function OnNewPages(s: Holes, coalescing: bool, next: nat, size: nat): Holes {
    var (p, end) := (NewPlace(coalescing, next, size), PagesEnd(coalescing, next, size));
    var t := WithGap(s, coalescing, next, RunStart(coalescing, next, Given(coalescing, next, Needed(next, size))));
    if end > p + size then HolePushed(t, p + size, end - (p + size))
    else if next == 0 then HolePushed(t, p + size, 0)
    else t
  }

  /** What a request on new pages comes to, from the run it gets. */
  lemma OnTheRun(s: Holes, coalescing: bool, next: nat, size: nat, start: nat, n: nat)
    requires n == Given(coalescing, next, Needed(next, size)) && start == RunStart(coalescing, next, n)
    ensures PagesEnd(coalescing, next, size) == start + n * PAGE_SIZE
    ensures NewPagesOf(coalescing, next, size) == Obtained(coalescing, next, start, n)
    ensures var p := if next == 0 then UNIT else start;
            var rest := start + n * PAGE_SIZE - (p + size);
            && NewPlace(coalescing, next, size) == p
            && OnNewPages(s, coalescing, next, size)
            == if rest > 0 then HolePushed(WithGap(s, coalescing, next, start), p + size, rest)
               else if next == 0 then HolePushed(WithGap(s, coalescing, next, start), p + size, 0)
               else WithGap(s, coalescing, next, start)
  {
    hide Given, RunStart, WithGap, HolePushed;
  }

  /** The first pages of a document, once its head of 40 bytes is in them. */
  lemma BehindTheHead(coalescing: bool)
    ensures PagesEnd(coalescing, 0, 64) == (if coalescing then 4 else 1) * PAGE_SIZE
    ensures OnNewPages(NO_HOLES, coalescing, 0, 64)
         == HolePushed(NO_HOLES, 96, (if coalescing then 4 else 1) * PAGE_SIZE - 96)
  {
  }

  /** The place of a run as the code computes it, from the areas of its ends. */
  lemma RunPlace(coalescing: bool, next: nat, n: nat, end: nat)
    requires PageStart(next) && 0 < n && n * PAGE_SIZE <= AREA_SIZE && (coalescing || n * PAGE_SIZE < AREA_SIZE)
    requires end == next + PAGE_SIZE * if coalescing then n - 1 else n
    ensures RunStart(coalescing, next, n) == if next / AREA_SIZE != end / AREA_SIZE then end / AREA_SIZE * AREA_SIZE
                                             else next
  {
    var i, r := next / AREA_SIZE, next % AREA_SIZE;
    InItsArea(next);
    var m := (r + n * PAGE_SIZE) / PAGE_SIZE;
    assert r + n * PAGE_SIZE == m * PAGE_SIZE;
    assert end == i * AREA_SIZE + (r + if coalescing then (n - 1) * PAGE_SIZE else n * PAGE_SIZE);
    AreaIs(i, end - i * AREA_SIZE);
  }

  lemma InItsArea(next: nat)
    requires PageStart(next)
    ensures next % AREA_SIZE % PAGE_SIZE == 0 && next == next / AREA_SIZE * AREA_SIZE + next % AREA_SIZE
  {
    var i, m := next / AREA_SIZE, next / PAGE_SIZE;
    assert next % AREA_SIZE == (m - i * 1024) * PAGE_SIZE;
  }

  lemma AreaIs(i: nat, r: nat)
    requires r < 2 * AREA_SIZE
    ensures (i * AREA_SIZE + r) / AREA_SIZE == if r < AREA_SIZE then i else i + 1
  {
  }

  /** A run is among what it obtains, and was not there before. */
  lemma ObtainedNew(a: Arena, start: nat, n: nat)
    requires Sound(a) && n > 0 && start == RunStart(a.coalescing, a.next, n)
    ensures start in Obtained(a.coalescing, a.next, start, n) && start !in a.pages && (start == 0 ==> a.pages == {})
  {
    hide Sound, Run;
    NoPage(a, a.next);
    InItsArea(a.next);
    var i, r := a.next / AREA_SIZE, a.next % AREA_SIZE;
    assert start >= a.next && (start - a.next) % PAGE_SIZE == 0 by {
      if start != a.next {
        assert start - a.next == AREA_SIZE - r;
      }
    }
    NewRun(a, start, n);
    RunsTogether(a.next, (start - a.next) / PAGE_SIZE, n);
  }

  // ----- facts about lists -----

  lemma {:induction false} LessAt(list: seq<SegmentPtr>, n: nat)
    requires n < |list| && forall j, k :: 0 <= j < k < |list| ==> list[j] != list[k]
    ensures LessOne(list, list[n]) == list[..n] + list[n + 1..]
  {
    if n > 0 {
      assert list[0] != list[n];
      LessAt(list[1..], n - 1);
      assert list[1..][..n - 1] == list[1..n] && list[1..][n..] == list[n + 1..];
      assert list[..n] == [list[0]] + list[1..n];
    }
  }

  lemma LessHole(h: Headers, first: SegmentPtr, list: seq<SegmentPtr>, level: nat, n: nat)
    requires ListOk(h, first, list, level) && n < |list|
    ensures LessOne(list, list[n]) == list[..n] + list[n + 1..]
  {
    hide Level;
    LessAt(list, n);
  }

  lemma TakenIs(a: Arena, p: SegmentPtr, level: nat)
    requires LevelsOk(a.headers, a.holes, a.lists, {}) && p in a.headers && level == Level(a.headers[p].size)
    ensures level < |a.lists| && p in HolesOf(a).free
    ensures HoleTaken(HolesOf(a), p)
         == Holes(Sizes(a.headers) - {p}, a.lists[level := LessOne(a.lists[level], p)])
  {
    hide ListOk, LessOne;
    KeysOfSizes(a.headers);
  }

  // ----- the walk of a freed segment over its page -----

  /** Up to place c of the page list, no segment starts where the freed one ends, and, while nothing is joined, none
      ends where it starts. */
  ghost predicate NoneMet(free: Blocks, list: seq<SegmentPtr>, c: nat, p0: SegmentPtr, size0: nat, alone: bool) {
    && c <= |list| && (forall j :: 0 <= j < c ==> list[j] != p0 + size0)
    && (alone ==> forall j :: 0 <= j < c ==> list[j] in free && list[j] + free[list[j]] != p0)
  }

  lemma MetOne(free: Blocks, list: seq<SegmentPtr>, c: nat, p0: SegmentPtr, size0: nat, alone: bool)
    requires NoneMet(free, list, c, p0, size0, alone) && c < |list| && list[c] != p0 + size0
    requires alone ==> list[c] in free && list[c] + free[list[c]] != p0
    ensures NoneMet(free, list, c + 1, p0, size0, alone)
  {
  }

  lemma MetLeft(free: Blocks, free': Blocks, list: seq<SegmentPtr>, c: nat, p0: SegmentPtr, size0: nat)
    requires NoneMet(free, list, c, p0, size0, true) && c < |list|
    ensures NoneMet(free', list[..c] + list[c + 1..], c, p0, size0, false)
  {
  }

  /** A free segment of the page is in the page list. */
  lemma InOrder(a: Arena, base: nat, q: SegmentPtr) returns (j: nat)
    requires a.coalescing && Sound(a) && base in a.orders && StartsIn(Sizes(a.headers), base, q)
    ensures j < |a.orders[base]| && a.orders[base][j] == q
  {
    hide LevelsOk, Tiled, PageListOk, Base;
    KeysOfSizes(a.headers);
    j := PlaceInPage(a.headers, a.firsts, a.orders, q);
  }

  /** At most one free segment ends at an address. */
  lemma OneLeft(a: Arena, q: SegmentPtr, r: SegmentPtr, p: SegmentPtr)
    requires Sound(a) && EndsAt(Sizes(a.headers), q, p) && EndsAt(Sizes(a.headers), r, p)
    ensures q == r
  {
    hide LevelsOk, PageListsOk, Base, Covers;
    var b := AllBlocks(a);
    KeysOfSizes(a.headers);
    assert q in b && r in b && b[q] == Sizes(a.headers)[q] && b[r] == Sizes(a.headers)[r];
    assert b[q] > 0 && b[r] > 0;
  }

  lemma LeftIs(a: Arena, q: SegmentPtr, p: SegmentPtr)
    requires Sound(a) && EndsAt(Sizes(a.headers), q, p)
    ensures LeftEnd(Sizes(a.headers), p) == q
  {
    hide Sound, EndsAt;
    OneLeft(a, q, LeftEnd(Sizes(a.headers), p), p);
  }

  lemma NoLeft(free: Blocks, p: SegmentPtr)
    requires forall q: SegmentPtr :: !EndsAt(free, q, p)
    ensures LeftEnd(free, p) == p
  {
  }

  lemma NothingJoined(a: Arena, p0: SegmentPtr, size0: nat)
    requires a.coalescing && Sound(a) && Base(p0) in a.orders && Base(p0) in a.firsts && a.firsts[Base(p0)] >= PAGE_SIZE
    ensures LeftEnd(Sizes(a.headers), p0) == p0 && RightSize(Sizes(a.headers), p0, size0) == 0
    ensures NeighboursTaken(HolesOf(a), p0, size0) == HolesOf(a)
  {
    hide Sound, Base, PageListOk, HoleTaken, LeftEnd;
    NoneThere(a, Base(p0));
    NoLeft(Sizes(a.headers), p0);
  }

  lemma NoneThere(a: Arena, base: nat)
    requires a.coalescing && Sound(a) && base in a.orders && base in a.firsts && a.firsts[base] >= PAGE_SIZE
    ensures forall q :: !StartsIn(Sizes(a.headers), base, q)
  {
    hide LevelsOk, Tiled, PageListOk, Base;
    ThePage(a.headers, a.firsts, a.orders, {}, base);
    FirstInPage(a.headers, a.firsts[base], base, a.orders[base]);
    KeysOfSizes(a.headers);
  }

  /** What the walk meets behind a joined left neighbour lies behind it. */
  ghost predicate Beyond(list: seq<SegmentPtr>, c: nat, p: SegmentPtr) {
    forall j :: c <= j < |list| ==> list[j] > p
  }

  /** There is one left neighbour: the one that ends where the freed segment starts. */
  lemma LeftOnce(a: Arena, holes0: Holes, p0: SegmentPtr, c: nat, p: SegmentPtr)
    requires a.coalescing && Sound(a) && Base(p0) in a.orders && c < |a.orders[Base(p0)]|
    requires var q := a.orders[Base(p0)][c]; q in a.headers && q + a.headers[q].size == p
    requires HolesOf(a) == (if p == p0 then holes0 else HoleTaken(holes0, p))
    requires p != p0 ==> Beyond(a.orders[Base(p0)], c, p)
    ensures var (list, q) := (a.orders[Base(p0)], a.orders[Base(p0)][c]);
            p == p0 && EndsAt(holes0.free, q, p0) && q != p0 && Beyond(list[..c] + list[c + 1..], c, q)
  {
    hide LevelsOk, Tiled, Base, PageListOk;
    var list := a.orders[Base(p0)];
    KeysOfSizes(a.headers);
    ThePage(a.headers, a.firsts, a.orders, {}, Base(p0));
    Rising(a.headers, a.firsts[Base(p0)], Base(p0), list, c);
    SizeOfHeader(a, list[c]);
  }

  lemma Rising(h: Headers, first: nat, base: nat, list: seq<SegmentPtr>, c: nat)
    requires PageListOk(h, first, base, list) && c < |list|
    ensures Base(list[c]) == base && Beyond(list[..c] + list[c + 1..], c, list[c]) && Beyond(list, c + 1, list[c])
  {
    assert InPageOk(h, base, list, c);
  }

  /** What the walk has done at place c: it has joined the left neighbour, if it has met it, and nothing else. */
  ghost predicate Joining(holes0: Holes, a: Arena, p0: SegmentPtr, size0: nat, c: nat, p: SegmentPtr) {
    && a.coalescing && Base(p0) in a.orders
    && HolesOf(a) == (if p == p0 then holes0 else HoleTaken(holes0, p)) && (p != p0 ==> EndsAt(holes0.free, p, p0))
    && NoneMet(Sizes(a.headers), a.orders[Base(p0)], c, p0, size0, p == p0)
    && (p != p0 ==> Beyond(a.orders[Base(p0)], c, p))
  }

  lemma JoinStart(a: Arena, p0: SegmentPtr, size0: nat)
    requires a.coalescing && Base(p0) in a.orders
    ensures Joining(HolesOf(a), a, p0, size0, 0, p0)
  {
    hide Base;
  }

  lemma JoinPast(holes0: Holes, a: Arena, p0: SegmentPtr, size0: nat, c: nat, p: SegmentPtr)
    requires Sound(a) && Joining(holes0, a, p0, size0, c, p) && c < |a.orders[Base(p0)]|
    requires var q := a.orders[Base(p0)][c]; q in a.headers && q != p0 + size0 && q + a.headers[q].size != p
    ensures Joining(holes0, a, p0, size0, c + 1, p)
  {
    hide Sound, Base, HoleTaken, EndsAt, NoneMet;
    InTheOrder(a, Base(p0), c);
    MetOne(Sizes(a.headers), a.orders[Base(p0)], c, p0, size0, p == p0);
  }

  lemma JoinLeft(holes0: Holes, a: Arena, b: Arena, p0: SegmentPtr, size0: nat, c: nat, p: SegmentPtr)
    requires Sound(a) && Joining(holes0, a, p0, size0, c, p) && c < |a.orders[Base(p0)]|
    requires var q := a.orders[Base(p0)][c]; q in a.headers && q + a.headers[q].size == p
                                             && HolesOf(b) == HoleTaken(HolesOf(a), q)
    requires var list := a.orders[Base(p0)]; b.coalescing && b.orders == a.orders[Base(p0) := list[..c] + list[c + 1..]]
    ensures p == p0 && Joining(holes0, b, p0, size0, c, a.orders[Base(p0)][c])
  {
    hide Sound, Base, HoleTaken, EndsAt, NoneMet, Beyond;
    LeftOnce(a, holes0, p0, c, p);
    MetLeft(Sizes(a.headers), Sizes(b.headers), a.orders[Base(p0)], c, p0, size0);
  }

  /** The walk has met the right neighbour, and perhaps the left one. */
  lemma JoinedRight(a0: Arena, a: Arena, p0: SegmentPtr, size0: nat, c: nat, p: SegmentPtr)
    requires a0.coalescing && Sound(a0) && Sound(a) && size0 > 0 && Joining(HolesOf(a0), a, p0, size0, c, p)
    requires c < |a.orders[Base(p0)]| && a.orders[Base(p0)][c] == p0 + size0
    ensures p == LeftEnd(Sizes(a0.headers), p0) && p0 + size0 in a.headers
    ensures RightSize(Sizes(a0.headers), p0, size0) == a.headers[p0 + size0].size
    ensures HoleTaken(HolesOf(a), p0 + size0) == NeighboursTaken(HolesOf(a0), p0, size0)
  {
    hide Sound, Base, PageListOk, LeftEnd, NoneMet, HoleTaken;
    var base, end := Base(p0), p0 + size0;
    InTheOrder(a, base, c);
    if p != p0 {
      LeftIs(a0, p, p0);
      TakenLess(HolesOf(a0), p);
    } else {
      forall q: SegmentPtr
        ensures !EndsAt(Sizes(a.headers), q, p0)
      {
        NoneBefore(a, p0, size0, c, q);
      }
      NoLeft(Sizes(a.headers), p0);
    }
  }

  lemma InTheOrder(a: Arena, base: nat, c: nat)
    requires a.coalescing && Sound(a) && base in a.orders && c < |a.orders[base]|
    ensures var q := a.orders[base][c];
            q in a.headers && StartsIn(Sizes(a.headers), base, q) && Sizes(a.headers)[q] == a.headers[q].size
  {
    hide LevelsOk, Tiled, PageListOk, Base;
    ThePage(a.headers, a.firsts, a.orders, {}, base);
    InThePage(a.headers, a.firsts[base], base, a.orders[base]);
    KeysOfSizes(a.headers);
  }

  lemma TakenLess(s: Holes, p: SegmentPtr)
    requires p in s.free
    ensures HoleTaken(s, p).free == s.free - {p}
  {
  }

  /** Before the right neighbour, the walk has met no left one; behind it, there is none. */
  lemma NoneBefore(a: Arena, p0: SegmentPtr, size0: nat, c: nat, q: SegmentPtr)
    requires a.coalescing && Sound(a) && Base(p0) in a.orders && size0 > 0
    requires NoneMet(Sizes(a.headers), a.orders[Base(p0)], c, p0, size0, true)
    requires c < |a.orders[Base(p0)]| ==> a.orders[Base(p0)][c] == p0 + size0
    ensures !EndsAt(Sizes(a.headers), q, p0)
  {
    hide Sound, Base, PageListOk;
    if StartsIn(Sizes(a.headers), Base(p0), q) {
      var j := InOrder(a, Base(p0), q);
      if j >= c {
        OrderRises(a, Base(p0), c, j);
      }
    }
  }

  lemma OrderRises(a: Arena, base: nat, c: nat, j: nat)
    requires a.coalescing && Sound(a) && base in a.orders && c <= j < |a.orders[base]|
    ensures a.orders[base][c] <= a.orders[base][j]
  {
    hide LevelsOk, Tiled, Base;
    ThePage(a.headers, a.firsts, a.orders, {}, base);
  }

  /** The walk is over without a right neighbour. */
  lemma JoinedAll(a0: Arena, a: Arena, p0: SegmentPtr, size0: nat, p: SegmentPtr)
    requires a0.coalescing && Sound(a0) && Sound(a) && size0 > 0 && Base(p0) in a.orders
    requires Joining(HolesOf(a0), a, p0, size0, |a.orders[Base(p0)]|, p)
    ensures p == LeftEnd(Sizes(a0.headers), p0) && RightSize(Sizes(a0.headers), p0, size0) == 0
    ensures HolesOf(a) == NeighboursTaken(HolesOf(a0), p0, size0)
  {
    hide Sound, Base, PageListOk, LeftEnd, HoleTaken;
    var base, end := Base(p0), p0 + size0;
    if StartsIn(Sizes(a.headers), base, end) {
      var j := InOrder(a, base, end);
      assert false;
    }
    if p != p0 {
      LeftIs(a0, p, p0);
      TakenLess(HolesOf(a0), p);
    } else {
      forall q: SegmentPtr
        ensures !EndsAt(Sizes(a.headers), q, p0)
      {
        NoneBefore(a, p0, size0, |a.orders[base]|, q);
      }
      NoLeft(Sizes(a.headers), p0);
    }
  }
}
