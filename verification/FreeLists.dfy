/** The two structures that hold the free segments: doubly linked lists by size level, and a
    singly linked list of the free segments that start in a page. */
module FreeLists {
  import opened Units
  import opened Tiles

  const LEVEL_NUMBER := 5
  const LEVEL_OTHER := 4

  /** The header at the start of a free segment. */
  datatype FreeSegment = FreeSegment(nextInPage: nat, last: SegmentPtr, next: SegmentPtr, size: nat)

  type Headers = map<SegmentPtr, FreeSegment>

  /** computeFreeLevel: an unsigned 32-bit number, so that the size 0 wraps round to the last level. */
  function Level(size: nat): (level: nat)
    ensures level <= LEVEL_OTHER
    ensures size < 0x1_0000_0000 ==>
          level == if 1 <= size / UNIT <= LEVEL_OTHER then size / UNIT - 1 else LEVEL_OTHER
  {
    var level := (size / UNIT + 0xFFFF_FFFF) % 0x1_0000_0000;
    if level > LEVEL_OTHER then LEVEL_OTHER else level
  }

  // ----- the list of a level -----

  ghost predicate NodeOk(h: Headers, list: seq<SegmentPtr>, k: nat)
    requires k < |list|
  {
    && list[k] != 0 && list[k] in h
    && h[list[k]].last == (if k > 0 then list[k - 1] else 0)
    && h[list[k]].next == (if k + 1 < |list| then list[k + 1] else 0)
  }

  /** `last` and `next` run along the list in both directions, without a cycle. */
  ghost predicate ListOk(h: Headers, first: SegmentPtr, list: seq<SegmentPtr>, level: nat) {
    && first == (if list == [] then 0 else list[0])
    && (forall k :: 0 <= k < |list| ==> NodeOk(h, list, k))
    && (forall j, k :: 0 <= j < k < |list| ==> list[j] != list[k])
    && (forall k :: 0 <= k < |list| && list[k] in h ==> Level(h[list[k]].size) == level)
  }

  /** Every free segment that is not `out` is in the list of its level, and in no other. */
  ghost predicate LevelsOk(h: Headers, holes: seq<SegmentPtr>, lists: seq<seq<SegmentPtr>>, out: set<SegmentPtr>) {
    && |holes| == LEVEL_NUMBER && |lists| == LEVEL_NUMBER
    && (forall l :: 0 <= l < LEVEL_NUMBER ==> ListOk(h, holes[l], lists[l], l))
    && (forall p :: p in h && p !in out ==> p in lists[Level(h[p].size)])
    && (forall l, p :: 0 <= l < LEVEL_NUMBER && p in lists[l] ==> p !in out)
  }

  ghost predicate SameLinks(h: Headers, h': Headers, p: SegmentPtr) {
    p in h && p in h' && h'[p].last == h[p].last && h'[p].next == h[p].next && h'[p].size == h[p].size
  }

  lemma ListFrame(h: Headers, h': Headers, first: SegmentPtr, list: seq<SegmentPtr>, level: nat)
    requires ListOk(h, first, list, level) && forall p :: p in list ==> SameLinks(h, h', p)
    ensures ListOk(h', first, list, level)
  {
    forall k | 0 <= k < |list|
      ensures NodeOk(h', list, k) && Level(h'[list[k]].size) == level
    {
      assert NodeOk(h, list, k);
      assert list[k] in list && SameLinks(h, h', list[k]);
    }
  }

  /** The page lists may be changed without touching the level lists. */
  lemma LevelsFrame(h: Headers, h': Headers, holes: seq<SegmentPtr>, lists: seq<seq<SegmentPtr>>, out: set<SegmentPtr>)
    requires LevelsOk(h, holes, lists, out) && (forall p :: p in h' ==> p in h)
    requires forall p :: p in h && p !in out ==> SameLinks(h, h', p)
    ensures LevelsOk(h', holes, lists, out)
  {
    hide Level;
    forall l | 0 <= l < LEVEL_NUMBER
      ensures ListOk(h', holes[l], lists[l], l)
    {
      ListInHeaders(h, holes[l], lists[l], l);
      ListFrame(h, h', holes[l], lists[l], l);
    }
  }

  lemma ListInHeaders(h: Headers, first: SegmentPtr, list: seq<SegmentPtr>, level: nat)
    requires ListOk(h, first, list, level)
    ensures forall p :: p in list ==> p in h && p != 0
    ensures first != 0 <==> list != []
    ensures forall p :: p in list ==> Level(h[p].size) == level
  {
    hide Level;
    forall k | 0 <= k < |list|
      ensures list[k] in h && list[k] != 0 && Level(h[list[k]].size) == level
    {
      assert NodeOk(h, list, k);
    }
  }

  /** The header of the removed segment goes last. */
  lemma LevelsForget(h: Headers, holes: seq<SegmentPtr>, lists: seq<seq<SegmentPtr>>, p: SegmentPtr)
    requires LevelsOk(h, holes, lists, {p})
    ensures LevelsOk(h - {p}, holes, lists, {})
  {
    hide Level, ListOk;
    forall l | 0 <= l < LEVEL_NUMBER
      ensures ListOk(h - {p}, holes[l], lists[l], l)
    {
      ListInHeaders(h, holes[l], lists[l], l);
      ListFrame(h, h - {p}, holes[l], lists[l], l);
    }
  }

  // ----- pushing -----

  ghost function Pushed(h: Headers, first: SegmentPtr, p: SegmentPtr, size: nat): Headers {
    (if first in h then h[first := h[first].(last := p)] else h)[p := FreeSegment(PAGE_SIZE, 0, first, size)]
  }

  lemma PushList(h: Headers, first: SegmentPtr, list: seq<SegmentPtr>, level: nat, p: SegmentPtr, size: nat)
    requires ListOk(h, first, list, level) && p != 0 && p !in h && Level(size) == level
    ensures ListOk(Pushed(h, first, p, size), p, [p] + list, level)
  {
    hide Level;
    var h', list' := Pushed(h, first, p, size), [p] + list;
    ListInHeaders(h, first, list, level);
    forall k | 0 <= k < |list'|
      ensures NodeOk(h', list', k)
      ensures Level(h'[list'[k]].size) == level
    {
      if k > 0 {
        assert NodeOk(h, list, k - 1);
      }
    }
  }

  /** A new free segment goes to the front of the list of its level. */
  lemma PushLevels(h: Headers, holes: seq<SegmentPtr>, lists: seq<seq<SegmentPtr>>, p: SegmentPtr, size: nat)
    requires LevelsOk(h, holes, lists, {}) && p != 0 && p !in h
    ensures var l := Level(size);
            LevelsOk(Pushed(h, holes[l], p, size), holes[l := p], lists[l := [p] + lists[l]], {})
  {
    hide Level, ListOk;
    var l := Level(size);
    var h' := Pushed(h, holes[l], p, size);
    PushList(h, holes[l], lists[l], l, p, size);
    ListInHeaders(h, holes[l], lists[l], l);
    FirstOf(h, holes[l], lists[l], l);
    forall m | 0 <= m < LEVEL_NUMBER && m != l
      ensures ListOk(h', holes[m], lists[m], m)
    {
      ListInHeaders(h, holes[m], lists[m], m);
      OtherLevel(h, lists[l], lists[m], l, m);
      ListFrame(h, h', holes[m], lists[m], m);
    }
    assert forall q :: q in h' && q != p ==> q in h && h'[q].size == h[q].size;
  }

  lemma FirstOf(h: Headers, first: SegmentPtr, list: seq<SegmentPtr>, level: nat)
    requires ListOk(h, first, list, level)
    ensures first in list || list == []
    ensures first == if list == [] then 0 else list[0]
  {
  }

  lemma OtherLevel(h: Headers, a: seq<SegmentPtr>, b: seq<SegmentPtr>, l: nat, m: nat)
    requires l != m
    requires forall p :: p in a ==> p in h && Level(h[p].size) == l
    requires forall p :: p in b ==> p in h && Level(h[p].size) == m
    ensures forall p :: p in b ==> p !in a
  {
    hide Level;
    forall p | p in b
      ensures p !in a
    {
      assert Level(h[p].size) == m;
    }
  }

  // ----- unlinking -----

  ghost function Unlinked(h: Headers, p: SegmentPtr): Headers
    requires p in h
  {
    var x := h[p];
    var g := if x.last in h then h[x.last := h[x.last].(next := x.next)] else h;
    if x.next in g then g[x.next := g[x.next].(last := x.last)] else g
  }

  lemma UnlinkNode(h: Headers, first: SegmentPtr, list: seq<SegmentPtr>, level: nat, n: nat, k: nat)
    requires ListOk(h, first, list, level) && n < |list| && k < |list| - 1 && 0 !in h && list[n] in h
    ensures NodeOk(Unlinked(h, list[n]), list[..n] + list[n + 1..], k)
    ensures Unlinked(h, list[n])[(list[..n] + list[n + 1..])[k]].size == h[(list[..n] + list[n + 1..])[k]].size
  {
    hide Level;
    assert NodeOk(h, list, n) && NodeOk(h, list, if k < n then k else k + 1);
    assert n > 0 ==> NodeOk(h, list, n - 1);
    assert n + 1 < |list| ==> NodeOk(h, list, n + 1);
  }

  lemma UnlinkList(h: Headers, first: SegmentPtr, list: seq<SegmentPtr>, level: nat, n: nat)
    requires ListOk(h, first, list, level) && n < |list| && 0 !in h && list[n] in h
    ensures first == list[n] <==> n == 0
    ensures ListOk(Unlinked(h, list[n]), if n == 0 then h[list[n]].next else first, list[..n] + list[n + 1..], level)
  {
    hide Level;
    var h', list' := Unlinked(h, list[n]), list[..n] + list[n + 1..];
    assert NodeOk(h, list, n);
    ListInHeaders(h, first, list, level);
    forall k | 0 <= k < |list'|
      ensures NodeOk(h', list', k) && Level(h'[list'[k]].size) == level
    {
      UnlinkNode(h, first, list, level, n, k);
      assert list'[k] in list;
    }
    hide NodeOk, Unlinked;
  }

  /** Where the links of an unlinked segment lead. */
  lemma Neighbours(h: Headers, first: SegmentPtr, list: seq<SegmentPtr>, level: nat, n: nat)
    requires ListOk(h, first, list, level) && n < |list|
    ensures list[n] in h
    ensures if n == 0 then h[list[n]].last == 0
          else h[list[n]].last in list && h[list[n]].last in h && h[h[list[n]].last].next == list[n]
    ensures if n + 1 < |list| then h[list[n]].next in list && h[list[n]].next in h else h[list[n]].next == 0
  {
    assert NodeOk(h, list, n);
    assert n > 0 ==> NodeOk(h, list, n - 1);
    assert n + 1 < |list| ==> NodeOk(h, list, n + 1);
  }

  /** Taking a free segment out of the list of its level. */
  lemma UnlinkLevels(h: Headers, holes: seq<SegmentPtr>, lists: seq<seq<SegmentPtr>>, l: nat, n: nat)
    requires LevelsOk(h, holes, lists, {}) && 0 !in h && l < LEVEL_NUMBER && n < |lists[l]| && lists[l][n] in h
    ensures var (p, list) := (lists[l][n], lists[l]);
            LevelsOk(Unlinked(h, p), holes[l := if n == 0 then h[p].next else holes[l]],
                lists[l := list[..n] + list[n + 1..]], {p})
  {
    hide Level, ListOk;
    var p, list := lists[l][n], lists[l];
    var h', list' := Unlinked(h, p), list[..n] + list[n + 1..];
    UnlinkList(h, holes[l], list, l, n);
    Neighbours(h, holes[l], list, l, n);
    ListInHeaders(h, holes[l], list, l);
    forall m | 0 <= m < LEVEL_NUMBER && m != l
      ensures ListOk(h', holes[m], lists[m], m) && p !in lists[m]
    {
      ListInHeaders(h, holes[m], lists[m], m);
      OtherLevel(h, list, lists[m], l, m);
      ListFrame(h, h', holes[m], lists[m], m);
    }
    WithoutOne(h, holes[l], list, l, n);
    UnlinkSizes(h, p);
  }

  lemma WithoutOne(h: Headers, first: SegmentPtr, list: seq<SegmentPtr>, level: nat, n: nat)
    requires ListOk(h, first, list, level) && n < |list|
    ensures forall q :: q in list[..n] + list[n + 1..] <==> q in list && q != list[n]
  {
    forall q | q in list && q != list[n]
      ensures q in list[..n] + list[n + 1..]
    {
      var k :| 0 <= k < |list| && list[k] == q;
      assert (list[..n] + list[n + 1..])[if k < n then k else k - 1] == q;
    }
  }

  lemma UnlinkSizes(h: Headers, p: SegmentPtr)
    requires p in h
    ensures forall q :: q in Unlinked(h, p) <==> q in h
    ensures forall q :: q in h ==>
          Unlinked(h, p)[q].size == h[q].size && Unlinked(h, p)[q].nextInPage == h[q].nextInPage
  {
  }
}
