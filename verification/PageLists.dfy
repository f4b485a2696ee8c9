/** The free segments that start in a page, in a sorted singly linked list per page. */
module PageLists {
  import opened Units
  import opened Tiles
  import opened FreeLists

  function Base(p: SegmentPtr): (base: nat)
    ensures base <= p < base + PAGE_SIZE
  {
    p - p % PAGE_SIZE
  }

  type Firsts = map<nat, nat>                 // firstFreeSegmentInPage: an offset, or at least PageSize
  type PageOrders = map<nat, seq<SegmentPtr>>

  ghost predicate OffsetTo(base: nat, offset: nat, list: seq<SegmentPtr>, k: nat) {
    if k < |list| then base + offset == list[k] else offset >= PAGE_SIZE
  }

  ghost predicate InPageOk(h: Headers, base: nat, list: seq<SegmentPtr>, k: nat)
    requires k < |list|
  {
    list[k] in h && Base(list[k]) == base && OffsetTo(base, h[list[k]].nextInPage, list, k + 1)
  }

  ghost predicate PageListOk(h: Headers, first: nat, base: nat, list: seq<SegmentPtr>) {
    && OffsetTo(base, first, list, 0)
    && (forall k :: 0 <= k < |list| ==> InPageOk(h, base, list, k))
    && (forall j, k :: 0 <= j < k < |list| ==> list[j] < list[k])
  }

  /** Every free segment that is not `out` is in the list of the page it starts in; addresses strictly increase. */
  ghost predicate PagesOk(h: Headers, firsts: Firsts, orders: PageOrders, out: set<SegmentPtr>) {
    && (forall base :: base in orders <==> base in firsts)
    && (forall base :: base in orders ==> PageListOk(h, firsts[base], base, orders[base]))
    && (forall p :: p in h && p !in out ==> Base(p) in orders && p in orders[Base(p)])
    && (forall base, p :: base in orders && p in orders[base] ==> p !in out)
  }

  ghost predicate SameInPage(h: Headers, h': Headers, p: SegmentPtr) {
    p in h && p in h' && h'[p].nextInPage == h[p].nextInPage
  }

  lemma PageListFrame(h: Headers, h': Headers, first: nat, base: nat, list: seq<SegmentPtr>)
    requires PageListOk(h, first, base, list) && forall p :: p in list ==> SameInPage(h, h', p)
    ensures PageListOk(h', first, base, list)
  {
    hide Base;
    forall k | 0 <= k < |list|
      ensures InPageOk(h', base, list, k)
    {
      assert InPageOk(h, base, list, k);
      assert list[k] in list && SameInPage(h, h', list[k]);
    }
  }

  lemma InThePage(h: Headers, first: nat, base: nat, list: seq<SegmentPtr>)
    requires PageListOk(h, first, base, list)
    ensures forall p :: p in list ==> p in h && Base(p) == base
  {
    hide Base;
    forall k | 0 <= k < |list|
      ensures list[k] in h && Base(list[k]) == base
    {
      assert InPageOk(h, base, list, k);
    }
  }

  lemma PagesFrame(h: Headers, h': Headers, firsts: Firsts, orders: PageOrders, out: set<SegmentPtr>)
    requires PagesOk(h, firsts, orders, out) && (forall p :: p in h' && p !in out ==> p in h)
    requires forall p :: p in h && p !in out ==> SameInPage(h, h', p)
    ensures PagesOk(h', firsts, orders, out)
  {
    hide Base, PageListOk;
    forall base | base in orders
      ensures PageListOk(h', firsts[base], base, orders[base])
    {
      InThePage(h, firsts[base], base, orders[base]);
      PageListFrame(h, h', firsts[base], base, orders[base]);
    }
  }

  /** Changing the list of one page only. */
  lemma ChangePage(h: Headers, h': Headers, firsts: Firsts, orders: PageOrders, out: set<SegmentPtr>,
      out': set<SegmentPtr>, base: nat, first: nat, list: seq<SegmentPtr>)
    requires PagesOk(h, firsts, orders, out) && base in orders && PageListOk(h', first, base, list)
    requires forall p :: p in h' <==> p in h
    requires forall p :: p in h && Base(p) != base && p !in out ==> SameInPage(h, h', p)
    requires forall p :: p in h && Base(p) == base ==> (p in list <==> p !in out')
    requires forall p :: p in h && Base(p) != base ==> (p in out' <==> p in out)
    ensures PagesOk(h', firsts[base := first], orders[base := list], out')
  {
    hide Base, PageListOk;
    InThePage(h', first, base, list);
    forall other | other in orders && other != base
      ensures PageListOk(h', firsts[other], other, orders[other])
    {
      InThePage(h, firsts[other], other, orders[other]);
      PageListFrame(h, h', firsts[other], other, orders[other]);
    }
    forall other, p | other in orders && other != base && p in orders[other]
      ensures p !in out'
    {
      InThePage(h, firsts[other], other, orders[other]);
    }
  }

  lemma PagesForget(h: Headers, firsts: Firsts, orders: PageOrders, p: SegmentPtr)
    requires PagesOk(h, firsts, orders, {p})
    ensures PagesOk(h - {p}, firsts, orders, {})
  {
    hide Base, PageListOk;
    PagesFrame(h, h - {p}, firsts, orders, {p});
  }

  // ----- taking a segment out of the list of its page -----

  /** The predecessor, or the page, leads to what follows place n. */
  ghost function Bypassed(h: Headers, list: seq<SegmentPtr>, n: nat): Headers
    requires n < |list| && list[n] in h
  {
    if n > 0 && list[n - 1] in h then h[list[n - 1] := h[list[n - 1]].(nextInPage := h[list[n]].nextInPage)] else h
  }

  lemma BypassList(h: Headers, first: nat, base: nat, list: seq<SegmentPtr>, n: nat)
    requires PageListOk(h, first, base, list) && n < |list| && list[n] in h
    ensures PageListOk(Bypassed(h, list, n), if n == 0 then h[list[n]].nextInPage
          else first, base, list[..n] + list[n + 1..])
  {
    hide Base;
    var h', list' := Bypassed(h, list, n), list[..n] + list[n + 1..];
    assert InPageOk(h, base, list, n);
    forall k | 0 <= k < |list'|
      ensures InPageOk(h', base, list', k)
    {
      assert InPageOk(h, base, list, if k < n then k else k + 1);
    }
  }

  lemma BypassPages(h: Headers, firsts: Firsts, orders: PageOrders, base: nat, n: nat)
    requires PagesOk(h, firsts, orders, {}) && base in orders && n < |orders[base]| && orders[base][n] in h
    ensures var (p, list) := (orders[base][n], orders[base]);
            PagesOk(Bypassed(h, list, n), firsts[base := if n == 0 then h[p].nextInPage else firsts[base]],
                orders[base := list[..n] + list[n + 1..]], {p})
  {
    hide Base, PageListOk;
    var p, list := orders[base][n], orders[base];
    BypassList(h, firsts[base], base, list, n);
    InThePage(h, firsts[base], base, list);
    Without(h, firsts[base], base, list, n);
    BypassedElsewhere(h, list, n);
    ChangePage(h, Bypassed(h, list, n), firsts, orders, {}, {p}, base, if n == 0 then h[p].nextInPage
        else firsts[base], list[..n] + list[n + 1..]);
  }

  lemma BypassedElsewhere(h: Headers, list: seq<SegmentPtr>, n: nat)
    requires n < |list| && list[n] in h
    ensures forall q :: q in Bypassed(h, list, n) <==> q in h
    ensures forall q :: q in h && q !in list ==> SameInPage(h, Bypassed(h, list, n), q)
  {
  }

  lemma Without(h: Headers, first: nat, base: nat, list: seq<SegmentPtr>, n: nat)
    requires PageListOk(h, first, base, list) && n < |list|
    ensures forall q :: q in list[..n] + list[n + 1..] <==> q in list && q != list[n]
  {
    hide Base;
    forall q | q in list && q != list[n]
      ensures q in list[..n] + list[n + 1..]
    {
      var k :| 0 <= k < |list| && list[k] == q;
      assert (list[..n] + list[n + 1..])[if k < n then k else k - 1] == q;
    }
  }

  // ----- inserting a segment -----

  /** p goes to place n: it leads to what was there, and the predecessor, or the page, leads to p. */
  ghost function Inserted(h: Headers, base: nat, list: seq<SegmentPtr>, n: nat, p: SegmentPtr, next: nat): Headers
    requires n <= |list| && p in h && base <= p
  {
    var g := h[p := h[p].(nextInPage := next)];
    if n > 0 && list[n - 1] in g then g[list[n - 1] := g[list[n - 1]].(nextInPage := p - base)] else g
  }

  ghost predicate Belongs(list: seq<SegmentPtr>, n: nat, p: SegmentPtr) {
    && n <= |list|
    && (forall k :: 0 <= k < n ==> list[k] < p)
    && (forall k :: n <= k < |list| ==> p < list[k])
  }

  lemma InsertList(h: Headers, first: nat, base: nat, list: seq<SegmentPtr>, n: nat, p: SegmentPtr, next: nat)
    requires PageListOk(h, first, base, list) && Belongs(list, n, p) && p in h && Base(p) == base
          && OffsetTo(base, next, list, n)
    ensures PageListOk(Inserted(h, base, list, n, p, next), if n == 0 then p - base
          else first, base, list[..n] + [p] + list[n..])
  {
    hide Base;
    assert base <= p;
    var h', list' := Inserted(h, base, list, n, p, next), list[..n] + [p] + list[n..];
    forall k | 0 <= k < |list'|
      ensures InPageOk(h', base, list', k)
    {
      if k < n {
        assert InPageOk(h, base, list, k);
      } else if k > n {
        assert InPageOk(h, base, list, k - 1);
      }
    }
  }

  lemma InsertPages(h: Headers, firsts: Firsts, orders: PageOrders, n: nat, p: SegmentPtr, next: nat)
    requires p in h && Base(p) in orders && PagesOk(h, firsts, orders, {p}) && Belongs(orders[Base(p)], n, p)
    requires OffsetTo(Base(p), next, orders[Base(p)], n)
    ensures var (base, list) := (Base(p), orders[Base(p)]);
            PagesOk(Inserted(h, base, list, n, p, next), firsts[base := if n == 0 then p - base else firsts[base]],
                orders[base := list[..n] + [p] + list[n..]], {})
  {
    hide Base, PageListOk;
    var base, list := Base(p), orders[Base(p)];
    InsertList(h, firsts[base], base, list, n, p, next);
    InThePage(h, firsts[base], base, list);
    InsertedElsewhere(h, base, list, n, p, next);
    assert forall q :: q in list[..n] + [p] + list[n..] <==> q in list || q == p;
    ChangePage(h, Inserted(h, base, list, n, p, next), firsts, orders, {p}, {}, base, if n == 0 then p - base
        else firsts[base], list[..n] + [p] + list[n..]);
  }

  lemma InsertedElsewhere(h: Headers, base: nat, list: seq<SegmentPtr>, n: nat, p: SegmentPtr, next: nat)
    requires n <= |list| && p in h && base <= p
    ensures forall q :: q in Inserted(h, base, list, n, p, next) <==> q in h
    ensures forall q :: q in h && q !in list && q != p ==> SameInPage(h, Inserted(h, base, list, n, p, next), q)
  {
  }
}
