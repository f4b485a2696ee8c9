/** What a write may allocate: copies along the path to the offset, and the page it stores. */
module PathCopies {
  import opened Radix
  import opened PageTree
  import opened TreeSteps
  import opened EntrySteps
  import opened TreeWalk
  import opened Writing

  /** The pages from p down to the PageInfoPage of the offset. */
  ghost function PathPages(pages: map<PagePtr, Page>, p: PagePtr, level: nat, offset: nat): set<PagePtr>
    decreases level
  {
    if p !in pages then {}
    else if level <= 1 || !pages[p].IndirectionPage? then {p}
    else {p} + PathPages(pages, Kid(pages[p], SlotOf(level, offset)), level - 1, RestOf(level, offset))
  }

  ghost function Path(f: Forest, r: PagePtr, offset: nat): set<PagePtr> {
    if r in f.revs then PathPages(f.pages, f.revs[r].root.page, f.revs[r].level, offset) else {}
  }

  /** Nothing is allocated but pages of s. */
  ghost predicate Adds(f: Forest, f': Forest, s: set<PagePtr>) {
    forall x :: x in f'.pages && x !in f.pages ==> x in s
  }

  /** The tree of r has one more level exactly if it did not reach the offset, and what is new is on the path to it,
      or in s. */
  ghost predicate Copied(f: Forest, f': Forest, r: PagePtr, offset: nat, s: set<PagePtr>) {
    && r in f.revs && r in f'.revs && Adds(f, f', Path(f', r, offset) + s)
    && f'.revs[r].level
    == f.revs[r].level + if offset - offset % INFO_POINTERS < Covered(f.revs[r].level) then 0 else 1
  }

  lemma AddsNothing(f: Forest, s: set<PagePtr>)
    ensures Adds(f, f, s)
  {
  }

  lemma PageStays(f: Forest, f': Forest, r: PagePtr, x: PagePtr)
    requires Fetches(f, f', r) && x in f.pages
    ensures x in f'.pages
  {
    assert x in f.meta;
  }

  lemma NewSince(f: Forest, f': Forest, r: PagePtr, x: PagePtr)
    requires Fetches(f, f', r) && Fresh(f', x)
    ensures x !in f.pages
  {
    if x in f.pages {
      PageStays(f, f', r, x);
    }
  }

  lemma KeepsRoot(f: Forest, f': Forest, r: PagePtr, level: nat)
    requires Fetches(f, f', r) && KeepsAbove(f, f', r, level) && r in f.revs
    ensures r in f'.revs && f'.revs[r].root == f.revs[r].root && f'.revs[r].level == f.revs[r].level
  {
  }

  lemma GrownAdds(f: Forest, r: PagePtr, p: PagePtr)
    requires r in f.revs && f.revs[r].root.page in f.meta && Fresh(f, p)
    ensures Adds(f, Grown(f, r, p), {p})
  {
  }

  /** One slot of q is filled, and then the walk goes on below it. */
  lemma CopiedBelow(f: Forest, g: Forest, h: Forest, q: PagePtr, level: nat, offset: nat, child: PagePtr)
    requires Adds(f, g, {child}) && level >= 2
          && Adds(g, h, PathPages(h.pages, child, level - 1, RestOf(level, offset)))
    requires q in h.pages && h.pages[q].IndirectionPage? && child in h.pages
    requires child == Kid(h.pages[q], SlotOf(level, offset))
    ensures Adds(f, h, PathPages(h.pages, q, level, offset))
  {
    assert child in PathPages(h.pages, child, level - 1, RestOf(level, offset));
  }

  /** The root is replaced, and then the walk goes on below it. */
  lemma CopiedRoot(f: Forest, g: Forest, h: Forest, r: PagePtr, offset: nat)
    requires r in g.revs && r in h.revs && h.revs[r].root == g.revs[r].root && g.revs[r].root.page in h.pages
    requires Adds(f, g, {g.revs[r].root.page}) && Adds(g, h, Path(h, r, offset))
    ensures Adds(f, h, Path(h, r, offset))
  {
    assert h.revs[r].root.page in Path(h, r, offset);
  }

  lemma {:induction false} AlignedPages(pages: map<PagePtr, Page>, x: PagePtr, level: nat, offset: nat)
    ensures PathPages(pages, x, level, offset - offset % INFO_POINTERS) == PathPages(pages, x, level, offset)
    decreases level
  {
    if x in pages && level >= 2 {
      AlignedDigits(level, offset);
      AlignedPages(pages, Kid(pages[x], SlotOf(level, offset)), level - 1, RestOf(level, offset));
    }
  }

  /** Changes below the indirection pages leave the paths. */
  lemma {:induction false} PathGrows(pages: map<PagePtr, Page>, pages': map<PagePtr, Page>, p: PagePtr, level: nat,
      offset: nat)
    requires forall x :: x in pages ==> x in pages' && (pages[x].IndirectionPage? ==> pages'[x] == pages[x])
    ensures PathPages(pages, p, level, offset) <= PathPages(pages', p, level, offset)
    decreases level
  {
    if p in pages && level >= 2 && pages[p].IndirectionPage? {
      PathGrows(pages, pages', Kid(pages[p], SlotOf(level, offset)), level - 1, RestOf(level, offset));
    }
  }

  /** What a fetch of the PageInfoPage of the offset copies. */
  lemma FetchCopied(f: Forest, f': Forest, r: PagePtr, offset: nat)
    requires r in f.revs && r in f'.revs && Adds(f, f', Path(f', r, offset - offset % INFO_POINTERS))
    requires f'.revs[r].level
          == f.revs[r].level + if offset - offset % INFO_POINTERS < Covered(f.revs[r].level) then 0 else 1
    ensures Copied(f, f', r, offset, {})
  {
    AlignedPages(f'.pages, f'.revs[r].root.page, f'.revs[r].level, offset);
  }

  /** A fetch, and then a change of pages other than indirection pages. */
  lemma CopiedThen(f: Forest, g: Forest, h: Forest, r: PagePtr, offset: nat, s: set<PagePtr>)
    requires Copied(f, g, r, offset, {}) && Adds(g, h, s) && r in h.revs
    requires h.revs[r].root == g.revs[r].root && h.revs[r].level == g.revs[r].level
    requires forall x :: x in g.pages ==> x in h.pages && (g.pages[x].IndirectionPage? ==> h.pages[x] == g.pages[x])
    ensures Copied(f, h, r, offset, s)
  {
    PathGrows(g.pages, h.pages, g.revs[r].root.page, g.revs[r].level, offset);
  }

  lemma CopiedMore(f: Forest, g: Forest, r: PagePtr, offset: nat, s: set<PagePtr>, t: set<PagePtr>)
    requires Copied(f, g, r, offset, s) && s <= t
    ensures Copied(f, g, r, offset, t)
  {
    hide Path;
  }

  lemma SegmentCopied(f: Forest, g: Forest, r: PagePtr, index: nat, p: PagePtr, data: seq<bv8>, tag: nat)
    requires Copied(f, g, r, index, {}) && AtEntry(g, r, index) && Fresh(g, p)
    ensures Copied(f, SegmentHung(g, r, index, p, data, tag), r, index, {p})
  {
    hide Inv, Path;
    CopiedThen(f, g, SegmentHung(g, r, index, p, data, tag), r, index, {p});
  }

  lemma StoreCopied(f: Forest, g: Forest, r: PagePtr, index: nat, data: seq<bv8>)
    requires AtEntry(g, r, index) && Entry(g, r, index).page != 0
    requires Copied(f, g, r, index, {Entry(g, r, index).page})
    ensures var p := Entry(g, r, index).page;
            Copied(f, g.(pages := g.pages[p := SegmentPage(data)]), r, index, {p})
  {
    hide Inv;
    var p := Entry(g, r, index).page;
    EntryOwner(g, r, index);
    PathGrows(g.pages, g.pages[p := SegmentPage(data)], g.revs[r].root.page, g.revs[r].level, index);
  }
}
