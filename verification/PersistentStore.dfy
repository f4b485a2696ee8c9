/** The store: branches, revisions and pages, updated in place. */
module PersistentStore {
  import opened Radix
  import opened PageTree
  import opened TreeSteps
  import opened RevisionSteps
  import opened EntrySteps
  import opened TreeWalk
  import opened Writing
  import opened PathCopies
  import opened DropWalk

  class PersistentStore {
    var pages: map<PagePtr, Page>
    var revs: map<PagePtr, Revision>

    ghost var meta: map<PagePtr, Meta>
    ghost var anc: map<PagePtr, set<PagePtr>>
    ghost var known: set<PagePtr>
    ghost var loose: set<PagePtr>

    ghost function F(): Forest
      reads this
    {
      Forest(pages, revs, meta, anc, known, loose)
    }

    ghost predicate ValidTree()
      reads this
    {
      && Inv(F()) && loose == {}
      && Owners(F())
    }

    constructor ()
      ensures ValidTree() && pages == map[] && revs == map[] && known == {}
    {
      pages, revs, meta, anc, known, loose := map[], map[], map[], map[], {}, {};
    }

    // ----- allocation -----

    /** The page supplier: any page that is not in use, freed pages included. */
    method GetFreePagePtr() returns (p: PagePtr)
      ensures Fresh(F(), p)
    {
      FreshExists(pages.Keys + revs.Keys);
      p :| p != 0 && p !in pages.Keys + revs.Keys;
    }

    /** getFreeIndirectionPagePtr, getFreePageInfoPagePtr and __getFreePagePtr: a page counted as owned by rev. */
    method AllocatePage(rev: PagePtr, content: Page, ghost level: nat) returns (p: PagePtr)
      requires rev in revs && Shape(content, level)
      modifies this
      ensures Fresh(old(F()), p)
      ensures F() == Alloced(old(F()), rev, p, content, level)
    {
      p := GetFreePagePtr();
      var owned := revs[rev].owned;
      match content {
        case SegmentPage(_) => owned := owned.(segments := owned.segments + 1);
        case InfoPage(_) => owned := owned.(infos := owned.infos + 1);
        case IndirectionPage(_) => owned := owned.(indirections := owned.indirections + 1);
      }
      revs := revs[rev := revs[rev].(owned := owned)];
      pages := pages[p := content];
      meta := meta[p := Meta(rev, level, 0, RootSlot)];
      loose := loose + {p};
    }

    method StealPageInfoPage(rev: PagePtr, stolen: PagePtr) returns (p: PagePtr)
      requires rev in revs && stolen in pages && pages[stolen].InfoPage? && Shape(pages[stolen], 1)
      modifies this
      ensures Fresh(old(F()), p)
      ensures F() == Alloced(old(F()), rev, p, StolenCopy(old(pages[stolen])), 1)
    {
      p := AllocatePage(rev, pages[stolen], 1);
    }

    /** Copies the pointers one by one and marks the copies stolen. */
    method StealIndirectionPage(rev: PagePtr, stolen: PagePtr, ghost level: nat) returns (p: PagePtr)
      requires rev in revs && stolen in pages && pages[stolen].IndirectionPage? && Shape(pages[stolen], level)
      modifies this
      ensures Fresh(old(F()), p)
      ensures F() == Alloced(old(F()), rev, p, StolenCopy(old(pages[stolen])), level)
    {
      var source := pages[stolen].refs;
      p := AllocatePage(rev, ZeroPage(2), level);
      ghost var base := pages;
      var refs := pages[p].refs;
      for i := 0 to INDIRECTION_POINTERS
        invariant |refs| == |source| == INDIRECTION_POINTERS
        invariant forall j :: 0 <= j < i ==> refs[j] == Steal(source[j])
        invariant pages == base[p := IndirectionPage(refs)]
        invariant revs == old(Alloced(F(), rev, p, ZeroPage(2), level).revs)
              && meta == old(Alloced(F(), rev, p, ZeroPage(2), level).meta)
        invariant anc == old(anc) && known == old(known) && loose == old(loose) + {p}
      {
        refs := refs[i := source[i]];
        if refs[i].page != 0 {
          refs := refs[i := Ref(refs[i].page, true)];
        }
        pages := pages[p := IndirectionPage(refs)];
      }
      assert IndirectionPage(refs) == StolenCopy(old(pages[stolen]));
    }

    // ----- the walk down the tree -----

    /** Stores the pointer to the page `p` that was just allocated for this slot. */
    method SetPointer(rev: PagePtr, q: PagePtr, local: nat, p: PagePtr, ghost f: Forest, ghost pg: Page)
      requires AtSlot(f, rev, q, local) && Fits(f, rev, q, local, pg) && Fresh(f, p)
      requires F() == Alloced(f, rev, p, pg, f.meta[q].level - 1)
      requires q in pages && pages[q].IndirectionPage? && local < |pages[q].refs| && q != p
      modifies this
      ensures F() == Replaced(f, rev, q, local, p, pg)
      ensures Inv(F()) && loose == {} && Fetches(f, F(), rev) && KeepsAbove(f, F(), rev, f.meta[q].level)
            && OwnsSlot(F(), rev, q, local)
      ensures rev in known && rev in revs && q in meta && meta[q] == f.meta[q]
      ensures q in pages && Adds(f, F(), {Kid(pages[q], local)})
    {
      hide Inv, Fits, Fetches, KeepsAbove, OwnsSlot;
      pages := pages[q := IndirectionPage(pages[q].refs[local := Ref(p, false)])];
      meta := meta[p :=
            Meta(rev, f.meta[q].level - 1, meta[q].base + local * Covered(f.meta[q].level - 1), ChildSlot(q, local))];
      loose := loose - {p};
      ReplaceChild(f, rev, q, local, p, pg);
    }

    /** The two write-path branches of fetchPageInfoPagePtrFromIndirection: an empty slot gets
        a blank page, a stolen one a copy. */
    method OwnChild(rev: PagePtr, q: PagePtr, level: nat, local: nat)
      requires AtSlot(F(), rev, q, local) && level == meta[q].level && pages[q].IndirectionPage?
            && local < |pages[q].refs|
      modifies this
      ensures Inv(F()) && loose == {} && Fetches(old(F()), F(), rev) && KeepsAbove(old(F()), F(), rev, level)
            && OwnsSlot(F(), rev, q, local)
      ensures rev in known && rev in revs && q in meta && meta[q] == old(meta[q])
      ensures q in pages && Adds(old(F()), F(), {Kid(pages[q], local)})
    {
      hide Inv, Fits, Fetches, KeepsAbove, OwnsSlot;
      ghost var f := F();
      InvPages(f);
      var p: PagePtr;
      if pages[q].refs[local].page == 0 {
        BlankFits(f, rev, q, local);
        p := AllocatePage(rev, ZeroPage(level - 1), level - 1);
        SetPointer(rev, q, local, p, f, ZeroPage(level - 1));
      } else if pages[q].refs[local].stolen {
        var k := pages[q].refs[local].page;
        CopyFits(f, rev, q, local, k);
        if level == 2 {
          p := StealPageInfoPage(rev, k);
        } else {
          p := StealIndirectionPage(rev, k, level - 1);
        }
        SetPointer(rev, q, local, p, f, StolenCopy(f.pages[k]));
      } else {
        OwnSlotAlready(f, rev, q, local);
        NothingFetched(f, rev, level);
      }
    }

    method FetchFromIndirection(rev: PagePtr, q: PagePtr, level: nat, offset: nat, write: bool) returns (res: PagePtr)
      requires Inv(F()) && loose == {} && rev in known && rev in revs
      requires q in pages && q in meta && meta[q].owner in known && meta[q].level == level >= 2
            && offset < Covered(level)
      requires write ==> meta[q].owner == rev
      modifies this
      ensures Inv(F()) && loose == {} && (!write ==> F() == old(F()))
      ensures Fetches(old(F()), F(), rev) && KeepsAbove(old(F()), F(), rev, level)
      ensures res == InfoPageAt(pages, q, level, offset)
      ensures write ==> res in pages && res in meta && meta[res].owner == rev && pages[res].InfoPage?
      ensures Adds(old(F()), F(), PathPages(pages, q, level, offset))
      decreases level, 1
    {
      hide Inv, OwnWrites, SameLookups, KeepsAbove, Fetches, InfoPageAt, PathPages, Adds;
      ghost var f := F();
      InvPages(f);
      assert Shape(pages[q], level);
      var local := LocalOffset(level, offset);
      Split(level, offset);
      if write {
        OwnChild(rev, q, level, local);
      } else {
        NothingFetched(f, rev, level);
        PathStep(pages, q, level, offset);
        if pages[q].refs[local].page == 0 {
          NoPage(pages, level - 1, RestOf(level, offset));
          AddsNothing(f, PathPages(pages, q, level, offset));
          return 0;
        }
        ReadChild(f, q, local);
        AddsNothing(f, {pages[q].refs[local].page});
      }
      ghost var g, child := F(), pages[q].refs[local].page;
      res := FetchBelowSlot(rev, q, level, local, offset, write);
      WalkCompose(f, g, F(), rev, q, level);
      PathStep(pages, q, level, offset);
      PageStays(g, F(), rev, child);
      CopiedBelow(f, g, F(), q, level, offset, child);
    }

    /** The recursion of fetchPageInfoPagePtrFromIndirection, below a slot that holds a page. */
    method FetchBelowSlot(rev: PagePtr, q: PagePtr, level: nat, local: nat, offset: nat, write: bool)
        returns (res: PagePtr)
      requires Inv(F()) && loose == {} && rev in known && rev in revs
      requires q in pages && q in meta && meta[q].level == level >= 2 && local == SlotOf(level, offset)
            && offset < Covered(level)
      requires pages[q].IndirectionPage? && local < |pages[q].refs|
      requires var c := pages[q].refs[local].page;
               c in pages && c in meta && meta[c].level == level - 1 && meta[c].owner in known
                   && (write ==> meta[c].owner == rev)
      modifies this
      ensures Inv(F()) && loose == {} && (!write ==> F() == old(F()))
      ensures Fetches(old(F()), F(), rev) && KeepsAbove(old(F()), F(), rev, level - 1)
      ensures res == InfoPageAt(pages, old(pages[q].refs[local].page), level - 1, RestOf(level, offset))
      ensures write ==> res in pages && res in meta && meta[res].owner == rev && pages[res].InfoPage?
      ensures Adds(old(F()), F(), PathPages(pages, old(pages[q].refs[local].page), level - 1, RestOf(level, offset)))
      decreases level, 0
    {
      hide Inv, OwnWrites, SameLookups, KeepsAbove, InfoPageAt, PathPages, Adds;
      InvPages(F());
      var child := pages[q].refs[local].page;
      if level > 2 {
        var area := CoveredArea(level - 1);
        var newOffset := And(offset, area - 1);
        MaskStep(level, offset);
        res := FetchFromIndirection(rev, child, level - 1, newOffset, write);
      } else {
        res := child;
        BottomStep(pages, child, RestOf(level, offset));
        InfoPageShape(F(), child);
        NothingFetched(F(), rev, level - 1);
        AddsNothing(F(), PathPages(pages, child, level - 1, RestOf(level, offset)));
      }
    }

    /** increaseIndirectionCoveredArea: one more level above the root. */
    method IncreaseIndirectionCoveredArea(rev: PagePtr)
      requires ValidTree() && rev in known && rev in revs && revs[rev].level < MAX_LEVEL
      modifies this
      ensures ValidTree() && Fetches(old(F()), F(), rev) && rev in known && rev in revs
      ensures revs[rev].level == old(revs[rev].level) + 1
      ensures !revs[rev].root.stolen && Adds(old(F()), F(), {revs[rev].root.page})
    {
      hide Inv, Fetches, OwnWrites, SameLookups, Alloced, Grown, Raised, Shape;
      ghost var f := F();
      KnownHasRoot(f, rev);
      BlankShape(revs[rev].level + 1);
      var root := revs[rev].root;
      var p := AllocatePage(rev, ZeroPage(2), revs[rev].level + 1);
      GrownIs(f, rev, p);
      pages := pages[p := IndirectionPage(pages[p].refs[0 := root])];
      revs := revs[rev := revs[rev].(level := revs[rev].level + 1, root := Ref(p, false))];
      if !root.stolen {
        meta := meta[root.page := meta[root.page].(up := ChildSlot(p, 0))];
      }
      loose := loose - {p};
      assert F() == Grown(f, rev, p);
      GrownAdds(f, rev, p);
      Grow(f, rev, p);
      GrownBounded(f, F(), rev);
    }

    /** The head of the write path: a stolen root is copied first. */
    method OwnRoot(rev: PagePtr)
      requires ValidTree() && rev in known && rev in revs
      modifies this
      ensures ValidTree() && Fetches(old(F()), F(), rev) && rev in known && rev in revs
      ensures revs[rev].level == old(revs[rev].level) && !revs[rev].root.stolen
      ensures !old(revs[rev].root.stolen) ==> F() == old(F())
      ensures Adds(old(F()), F(), {revs[rev].root.page})
    {
      hide Inv, Fetches, OwnWrites, SameLookups;
      ghost var f := F();
      KnownHasRoot(f, rev);
      InvPages(f);
      if revs[rev].root.stolen {
        var k, p := revs[rev].root.page, 0;
        if revs[rev].level == 1 {
          p := StealPageInfoPage(rev, k);
        } else {
          p := StealIndirectionPage(rev, k, revs[rev].level);
        }
        revs := revs[rev := revs[rev].(root := Ref(p, false))];
        loose := loose - {p};
        assert F() == RootReplaced(f, rev, p, StolenCopy(f.pages[k]));
        ReplaceRoot(f, rev, p);
        GrownBounded(f, F(), rev);
      } else {
        NothingFetched(f, rev, 0);
      }
    }

    /** The part of fetchPageInfoPagePtr after the coverage check. */
    method FetchCovered(rev: PagePtr, offset: nat, write: bool) returns (res: Fetched)
      requires ValidTree() && rev in known && rev in revs && offset < Covered(revs[rev].level)
      modifies this
      ensures ValidTree() && (!write ==> F() == old(F()))
      ensures Fetches(old(F()), F(), rev) && rev in known && rev in revs && revs[rev].level == old(revs[rev].level)
      ensures res == if EntryPage(F(), rev, offset) == 0 then NullPage else Found(EntryPage(F(), rev, offset))
      ensures write ==> res.Found? && Writable(F(), rev, offset)
      ensures Adds(old(F()), F(), Path(F(), rev, offset))
      ensures !old(revs[rev].root.stolen) ==> revs[rev].root == old(revs[rev].root)
    {
      hide Inv, Fetches, OwnWrites, SameLookups, KeepsAbove, Adds, PathPages;
      ghost var f := F();
      InvPages(f);
      if write {
        OwnRoot(rev);
      } else {
        NothingFetched(f, rev, revs[rev].level);
      }
      ghost var g := F();
      KnownHasRoot(g, rev);
      InvPages(g);
      var root, level := revs[rev].root.page, revs[rev].level;
      if level == 1 {
        res := Found(root);
        AddsNothing(g, Path(g, rev, offset));
        CopiedRoot(f, g, g, rev, offset);
        return;
      }
      var p := FetchFromIndirection(rev, root, level, offset, write);
      PageStays(g, F(), rev, root);
      KeepsRoot(g, F(), rev, level);
      CopiedRoot(f, g, F(), rev, offset);
      FetchesCompose(f, g, F(), rev);
      StillBounded(g, F(), rev, level);
      InvPages(F());
      res := if p == 0 then NullPage else Found(p);
    }

    method FetchPageInfoPagePtr(rev: PagePtr, offset: nat, write: bool) returns (res: Fetched)
      requires ValidTree() && rev in known && rev in revs && offset < RELATIVE_PAGES
      modifies this
      ensures ValidTree() && (!write ==> F() == old(F()))
      ensures Fetches(old(F()), F(), rev) && rev in known && rev in revs
      ensures res.MultiHop? <==> write && offset >= Covered(old(revs[rev].level)) * INDIRECTION_POINTERS
      ensures res.MultiHop? ==> F() == old(F())
      ensures res.Overbound? <==> !write && offset >= Covered(revs[rev].level)
      ensures !write && offset < Covered(revs[rev].level) ==>
                res == if EntryPage(F(), rev, offset) == 0 then NullPage else Found(EntryPage(F(), rev, offset))
      ensures write && !res.MultiHop? ==> res == Found(EntryPage(F(), rev, offset)) && Writable(F(), rev, offset)
      ensures Adds(old(F()), F(), Path(F(), rev, offset))
      ensures revs[rev].level
           == old(revs[rev].level) + if offset < Covered(old(revs[rev].level)) || !write || res.MultiHop? then 0 else 1
    {
      hide Inv, Fetches, OwnWrites, SameLookups, KeepsAbove, Adds, Path;
      ghost var f := F();
      KnownHasRoot(f, rev);
      InvPages(f);
      NothingFetched(f, rev, revs[rev].level);
      AddsNothing(f, {});
      AddsNothing(f, Path(f, rev, offset));
      var area := CoveredArea(revs[rev].level);
      if area <= offset {
        if !write {
          return Overbound;
        }
        if offset >= area * INDIRECTION_POINTERS {
          return MultiHop;
        }
        NotTop(revs[rev].level, offset);
        IncreaseIndirectionCoveredArea(rev);
      }
      ghost var g := F();
      KnownHasRoot(g, rev);
      res := FetchCovered(rev, offset, write);
      PageStays(g, F(), rev, g.revs[rev].root.page);
      if area <= offset {
        CopiedRoot(f, g, F(), rev, offset);
      }
      FetchesCompose(f, g, F(), rev);
    }

    // ----- access to one relative page -----

    /** doGetPageInfoPage: the PageInfoPage of a relative page, and the index inside it. */
    method DoGetPageInfoPage(rev: PagePtr, pageIndex: nat, write: bool) returns (res: Fetched, index: nat)
      requires ValidTree() && rev in known && rev in revs && pageIndex < RELATIVE_PAGES
      modifies this
      ensures ValidTree() && (!write ==> F() == old(F()))
      ensures Fetches(old(F()), F(), rev) && rev in known && rev in revs
      ensures index == pageIndex % INFO_POINTERS
      ensures write ==> res.MultiHop? || (res == Found(EntryPage(F(), rev, pageIndex)) && Writable(F(), rev, pageIndex))
      ensures write && pageIndex < Covered(old(revs[rev].level)) ==> res.Found?
      ensures write ==>
            (res.MultiHop? <==>
            pageIndex - pageIndex % INFO_POINTERS >= Covered(old(revs[rev].level)) * INDIRECTION_POINTERS)
      ensures res.MultiHop? ==> F() == old(F())
      ensures write && !res.MultiHop? ==> Copied(old(F()), F(), rev, pageIndex, {})
      ensures !write ==> res == if pageIndex >= Covered(revs[rev].level) then Overbound
                                else if EntryPage(F(), rev, pageIndex) == 0 then NullPage
                                    else Found(EntryPage(F(), rev, pageIndex))
    {
      hide Inv, Fetches, OwnWrites, SameLookups, Adds, Path, Copied;
      index := pageIndex % INFO_POINTERS;
      ghost var f, level := F(), revs[rev].level;
      res := FetchPageInfoPagePtr(rev, pageIndex - index, write);
      AlignedPath(pages, revs[rev].root.page, revs[rev].level, pageIndex);
      KnownHasRoot(F(), rev);
      AlignedBelow(revs[rev].level, pageIndex);
      assert Covered(level) <= Covered(level) * INDIRECTION_POINTERS;
      if write && !res.MultiHop? {
        FetchCopied(f, F(), rev, pageIndex);
      }
    }

    /** A fresh segment page of the writing revision goes into an entry. */
    method HangSegment(rev: PagePtr, q: PagePtr, index: nat, data: seq<bv8>, tag: nat, ghost pageIndex: nat)
      returns (p: PagePtr)
      requires AtEntry(F(), rev, pageIndex) && q == EntryPage(F(), rev, pageIndex) && index == pageIndex % INFO_POINTERS
      modifies this
      ensures Fresh(old(F()), p) && F() == SegmentHung(old(F()), rev, pageIndex, p, data, tag)
    {
      hide Inv, EntryPage;
      InvPages(F());
      p := AllocatePage(rev, SegmentPage(data), 0);
      pages := pages[q := InfoPage(pages[q].infos[index := PageInfo(p, revs[rev].brid, tag)])];
      meta := meta[p := Meta(rev, 0, meta[q].base + index * Covered(0), ChildSlot(q, index))];
      loose := loose - {p};
    }

    /** authorizePageWrite: after it, the segment page of the relative page belongs to the
        writing revision; every mapping still reads the same bytes. */
    method AuthorizePageWrite(rev: PagePtr, pageIndex: nat)
      requires ValidTree() && rev in known && rev in revs && revs[rev].writable
      requires pageIndex < RELATIVE_PAGES && Present(F(), rev, pageIndex)
      modifies this
      ensures ValidTree() && AtEntry(F(), rev, pageIndex)
      ensures var e := Entry(F(), rev, pageIndex);
              && e.page != 0 && e.brid == revs[rev].brid && e.tag == old(Lookup(F(), rev, pageIndex).info.tag)
              && WritesAt(old(F()), F(), rev, pageIndex, Leaf(e, old(Lookup(F(), rev, pageIndex).data)))
              && Copied(old(F()), F(), rev, pageIndex, {e.page})
              && if old(Lookup(F(), rev, pageIndex).info.brid == revs[rev].brid)
                 then e.page == old(Lookup(F(), rev, pageIndex).info.page) else e.page !in old(pages)
    {
      hide Inv, Fetches, OwnWrites, SameLookups, Lookup, WritesAt, EntryPage, Copied;
      ghost var f := F();
      assert pageIndex < Covered(revs[rev].level);
      var res, index := DoGetPageInfoPage(rev, pageIndex, true);
      ghost var g := F();
      FetchedEntry(f, g, rev, pageIndex);
      var q := res.page;
      var info := pages[q].infos[index];
      EntryOwner(g, rev, pageIndex);
      if info.brid != revs[rev].brid {
        var data := pages[info.page].data;
        var p := HangSegment(rev, q, index, data, info.tag, pageIndex);
        NewSince(f, g, rev, p);
        SegmentWrites(g, rev, pageIndex, p, data, info.tag);
        SegmentEntry(g, rev, pageIndex, p, data, info.tag);
        WriteBounded(g, F(), rev, pageIndex, Leaf(PageInfo(p, revs[rev].brid, info.tag), data));
        FetchThenWrite(f, g, F(), rev, pageIndex, Leaf(PageInfo(p, revs[rev].brid, info.tag), data));
        SegmentCopied(f, g, rev, pageIndex, p, data, info.tag);
      } else {
        FetchIsIdleWrite(f, g, rev, pageIndex);
        CopiedMore(f, g, rev, pageIndex, {}, {info.page});
      }
    }

    /** getSegment<Write> and the store through it: the page is authorized, then overwritten. */
    method WriteSegmentPage(rev: PagePtr, pageIndex: nat, data: seq<bv8>)
      requires ValidTree() && rev in known && rev in revs && revs[rev].writable
      requires pageIndex < RELATIVE_PAGES && Present(F(), rev, pageIndex)
      modifies this
      ensures ValidTree() && AtEntry(F(), rev, pageIndex)
      ensures var e := Entry(F(), rev, pageIndex);
              && e.page != 0 && e.brid == revs[rev].brid && e.tag == old(Lookup(F(), rev, pageIndex).info.tag)
              && WritesAt(old(F()), F(), rev, pageIndex, Leaf(e, data))
              && Copied(old(F()), F(), rev, pageIndex, {e.page})
              && if old(Lookup(F(), rev, pageIndex).info.brid == revs[rev].brid)
                 then e.page == old(Lookup(F(), rev, pageIndex).info.page) else e.page !in old(pages)
    {
      hide Inv, OwnWrites, Lookup, WritesAt, EntryPage, Writable, Copied;
      ghost var f := F();
      AuthorizePageWrite(rev, pageIndex);
      ghost var g := F();
      ghost var e := Entry(g, rev, pageIndex);
      var p := SegmentOf(rev, pageIndex);
      pages := pages[p := SegmentPage(data)];
      StoreWrites(g, rev, pageIndex, data);
      StoreEntry(g, rev, pageIndex, data);
      WriteBounded(g, F(), rev, pageIndex, Leaf(e, data));
      WriteThenWrite(f, g, F(), rev, pageIndex, Leaf(e, old(Lookup(F(), rev, pageIndex).data)), Leaf(e, data));
      StoreCopied(f, g, rev, pageIndex, data);
    }

    /** The segment page of an entry that the revision may write. */
    method SegmentOf(rev: PagePtr, pageIndex: nat) returns (p: PagePtr)
      requires ValidTree() && AtEntry(F(), rev, pageIndex)
      ensures p == Entry(F(), rev, pageIndex).page
    {
      hide Inv;
      KnownHasRoot(F(), rev);
      var q := revs[rev].root.page;
      var level: nat, offset: nat := revs[rev].level, pageIndex;
      while level > 1
        invariant level >= 1 && InfoPageAt(pages, q, level, offset) == EntryPage(F(), rev, pageIndex)
        invariant InfoIndex(level, offset) == InfoIndex(revs[rev].level, pageIndex)
        invariant q in pages && q in meta && meta[q].level == level && meta[q].owner in known && offset < Covered(level)
        decreases level
      {
        InvPages(F());
        assert Shape(pages[q], level);
        Split(level, offset);
        var local := LocalOffset(level, offset);
        ReadChild(F(), q, local);
        q, offset, level := pages[q].refs[local].page, RestOf(level, offset), level - 1;
      }
      OwnAddress(F(), rev, pageIndex);
      p := pages[q].infos[offset].page;
    }

    /** One step of getFreeRelativePages: a fresh segment page for a relative page that has none. */
    method NewSegmentPage(rev: PagePtr, pageIndex: nat, data: seq<bv8>, tag: nat) returns (ok: bool)
      requires ValidTree() && rev in known && rev in revs && revs[rev].writable
      requires pageIndex < RELATIVE_PAGES && !Present(F(), rev, pageIndex)
      modifies this
      ensures ValidTree()
      ensures ok <==> pageIndex - pageIndex % INFO_POINTERS < Covered(old(revs[rev].level)) * INDIRECTION_POINTERS
      ensures !ok ==> F() == old(F())
      ensures ok ==> AtEntry(F(), rev, pageIndex)
      ensures ok ==> var e := Entry(F(), rev, pageIndex);
                && e.page != 0 && e.brid == revs[rev].brid && e.tag == tag
                && WritesAt(old(F()), F(), rev, pageIndex, Leaf(e, data))
                && Copied(old(F()), F(), rev, pageIndex, {e.page}) && e.page !in old(pages)
    {
      hide Inv, Fetches, OwnWrites, SameLookups, Lookup, WritesAt, EntryPage, Copied;
      ghost var f := F();
      var res, index := DoGetPageInfoPage(rev, pageIndex, true);
      if res.MultiHop? {
        return false;
      }
      ghost var g := F();
      FetchedEntry(f, g, rev, pageIndex);
      AbsentEntry(f, rev, pageIndex);
      var p := HangSegment(rev, res.page, index, data, tag, pageIndex);
      NewSince(f, g, rev, p);
      SegmentWrites(g, rev, pageIndex, p, data, tag);
      SegmentEntry(g, rev, pageIndex, p, data, tag);
      WriteBounded(g, F(), rev, pageIndex, Leaf(PageInfo(p, revs[rev].brid, tag), data));
      FetchThenWrite(f, g, F(), rev, pageIndex, Leaf(PageInfo(p, revs[rev].brid, tag), data));
      SegmentCopied(f, g, rev, pageIndex, p, data, tag);
      ok := true;
    }

    /** setFirstFreeSegmentOffset: a field of the entry itself. */
    method SetTag(rev: PagePtr, pageIndex: nat, tag: nat)
      requires ValidTree() && rev in known && rev in revs && revs[rev].writable
      requires pageIndex < RELATIVE_PAGES && Present(F(), rev, pageIndex)
      modifies this
      ensures ValidTree()
      ensures WritesAt(old(F()), F(), rev, pageIndex,
            old(Lookup(F(), rev, pageIndex).(info := Lookup(F(), rev, pageIndex).info.(tag := tag))))
      ensures Copied(old(F()), F(), rev, pageIndex, {})
    {
      hide Inv, Fetches, OwnWrites, SameLookups, Lookup, WritesAt, EntryPage, Copied;
      ghost var f := F();
      assert pageIndex < Covered(revs[rev].level);
      var res, index := DoGetPageInfoPage(rev, pageIndex, true);
      ghost var g := F();
      FetchedEntry(f, g, rev, pageIndex);
      var q := res.page;
      pages := pages[q := InfoPage(pages[q].infos[index := pages[q].infos[index].(tag := tag)])];
      TagWrites(g, rev, pageIndex, tag);
      CopiedThen(f, g, F(), rev, pageIndex, {});
      WriteBounded(g, F(), rev, pageIndex, Lookup(g, rev, pageIndex).(info := Entry(g, rev, pageIndex).(tag := tag)));
      FetchThenWrite(f, g, F(), rev, pageIndex,
          Lookup(g, rev, pageIndex).(info := Entry(g, rev, pageIndex).(tag := tag)));
    }

    // ----- dropping a revision -----

    method DropOwnedSegmentPage(info: PageInfo, rev: PagePtr, stolen: bool, dropMap: set<PagePtr>, dropped: Counts)
      returns (dropMap': set<PagePtr>, dropped': Counts)
      ensures stolen ==> dropMap' == dropMap && dropped' == dropped
      ensures !stolen ==> dropMap' == dropMap + {info.page} && dropped' == dropped.(segments := dropped.segments + 1)
    {
      dropMap', dropped' := dropMap, dropped;
      if !stolen {
        dropped' := dropped'.(segments := dropped'.segments + 1);
        dropMap' := dropMap' + {info.page};
      }
    }

    method DropOwnedIndirectionPage(p: PagePtr, level: nat, stolen: bool, dropMap: set<PagePtr>, dropped: Counts)
      returns (dropMap': set<PagePtr>, dropped': Counts)
      requires level >= 1
      ensures stolen ==> dropMap' == dropMap && dropped' == dropped
      ensures !stolen ==> dropMap' == dropMap + {p} && dropped' == Bump(dropped, level)
    {
      dropMap', dropped' := dropMap, dropped;
      if !stolen {
        if level == 1 {
          dropped' := dropped'.(infos := dropped'.infos + 1);
        } else {
          dropped' := dropped'.(indirections := dropped'.indirections + 1);
        }
        dropMap' := dropMap' + {p};
      }
    }

    /** forPageInfoPage with the drop action: collects the segment pages of rev below p. */
    method ForPageInfoPage(rev: PagePtr, p: PagePtr, stolen: bool, dropMap: set<PagePtr>, dropped: Counts)
      returns (dropMap': set<PagePtr>, dropped': Counts)
      requires DropSite(F(), rev, p, stolen) && meta[p].level == 1 && Tally(F(), dropMap, dropped)
      requires !stolen ==> Before(F(), dropMap, meta[p].base)
      ensures Tally(F(), dropMap', dropped')
      ensures dropMap' == dropMap + Harvest(F(), p, INFO_POINTERS, stolen)
    {
      hide Inv, Tally;
      dropMap', dropped' := dropMap, dropped;
      InvPages(F());
      assert Shape(pages[p], 1);
      for i := 0 to INFO_POINTERS
        invariant Tally(F(), dropMap', dropped')
        invariant dropMap' == dropMap + Harvest(F(), p, i, stolen)
      {
        var info := pages[p].infos[i];
        InfoSlot(F(), rev, p, i, stolen);
        if info.page != 0 && info.brid == revs[rev].brid {
          TallyOne(F(), dropMap, dropMap', dropped', p, i, stolen);
          dropMap', dropped' := DropOwnedSegmentPage(info, rev, stolen, dropMap', dropped');
        }
      }
    }

    /** forIndirectionPages with the drop actions, for all slots of p. */
    method ForIndirectionPages(rev: PagePtr, p: PagePtr, level: nat, stolen: bool, dropMap: set<PagePtr>,
        dropped: Counts) returns (dropMap': set<PagePtr>, dropped': Counts)
      requires DropSite(F(), rev, p, stolen) && meta[p].level == level >= 2 && Tally(F(), dropMap, dropped)
      requires !stolen ==> Before(F(), dropMap, meta[p].base)
      ensures Tally(F(), dropMap', dropped')
      ensures dropMap' == dropMap + Harvest(F(), p, INDIRECTION_POINTERS, stolen)
      decreases level, 1
    {
      hide Inv, Tally, Before, DropSite;
      SiteShape(F(), rev, p, stolen);
      dropMap', dropped' := dropMap, dropped;
      for i := 0 to INDIRECTION_POINTERS
        invariant Tally(F(), dropMap', dropped')
        invariant dropMap' == dropMap + Harvest(F(), p, i, stolen)
      {
        dropMap', dropped' := ForIndirectionSlot(rev, p, level, i, stolen, dropMap, dropMap', dropped');
      }
    }

    /** The loop body of forIndirectionPages: below slot i first, then the page at slot i. */
    method ForIndirectionSlot(rev: PagePtr, p: PagePtr, level: nat, i: nat, stolen: bool, ghost start: set<PagePtr>,
        dropMap: set<PagePtr>, dropped: Counts) returns (dropMap': set<PagePtr>, dropped': Counts)
      requires DropSite(F(), rev, p, stolen) && p in pages && p in meta && meta[p].level == level >= 2
      requires pages[p].IndirectionPage? && i < |pages[p].refs| == INDIRECTION_POINTERS
      requires PagesOk(F()) && Tally(F(), dropMap, dropped) && dropMap == start + Harvest(F(), p, i, stolen)
      requires !stolen ==> Before(F(), start, meta[p].base)
      ensures Tally(F(), dropMap', dropped')
      ensures dropMap' == start + Harvest(F(), p, i + 1, stolen)
      decreases level, 0
    {
      hide Inv, Tally, Before;
      var ref := pages[p].refs[i];
      if ref.page == 0 {
        EmptySlot(F(), p, i, stolen);
        return dropMap, dropped;
      }
      ChildSlotSite(F(), rev, p, i, stolen);
      var childStolen := stolen || ref.stolen;
      if !childStolen {
        BeforeSlot(F(), p, i, start);
      }
      if level == 2 {
        dropMap', dropped' := ForPageInfoPage(rev, ref.page, childStolen, dropMap, dropped);
      } else {
        dropMap', dropped' := ForIndirectionPages(rev, ref.page, level - 1, childStolen, dropMap, dropped);
      }
      if !childStolen {
        TallyChild(F(), start, dropMap', dropped', p, i);
      }
      dropMap', dropped' := DropOwnedIndirectionPage(ref.page, level - 1, childStolen, dropMap', dropped');
    }

    /** forAllIndirectionPages with the drop actions: collects exactly the pages that rev owns,
        each once, and their numbers are the owned-page counters. */
    method ForAllIndirectionPages(rev: PagePtr) returns (dropMap: set<PagePtr>, dropped: Counts)
      requires Inv(F()) && loose == {} && rev in known && rev in revs
      ensures dropMap == Owned(F(), rev)
      ensures dropped == revs[rev].owned
    {
      hide Inv, Tally, DropSite;
      KnownHasRoot(F(), rev);
      RootSite(F(), rev);
      var root, level := revs[rev].root, revs[rev].level;
      dropMap, dropped := {}, Counts(0, 0, 0);
      if level > 1 {
        dropMap, dropped := ForIndirectionPages(rev, root.page, level, root.stolen, dropMap, dropped);
      } else {
        dropMap, dropped := ForPageInfoPage(rev, root.page, root.stolen, dropMap, dropped);
      }
      RootTally(F(), rev, dropMap, dropped);
      dropMap, dropped := DropOwnedIndirectionPage(root.page, level, root.stolen, dropMap, dropped);
      OwnedTally(F(), rev, dropMap, dropped);
    }

    /** dropAllPages: frees what the walk collected, and the revision page. */
    method DropAllPages(rev: PagePtr)
      requires ValidTree() && rev in known && rev in revs
      requires forall s :: s in known ==> rev !in anc[s]
      modifies this
      ensures ValidTree() && known == old(known) - {rev}
      ensures F() == Freed(old(F()).(known := old(known) - {rev}), rev)
      ensures SameLookups(F(), old(F())) && pages.Keys == old(pages.Keys) - Owned(old(F()), rev)
    {
      hide Inv, SameLookups;
      ghost var f := F();
      var dropMap, dropped := ForAllIndirectionPages(rev);
      ghost var forgotten := f.(known := f.known - {rev});
      var todo := dropMap;
      while todo != {}
        invariant todo <= dropMap
        invariant pages == f.pages - (dropMap - todo)
        invariant F() == f.(pages := pages)
        decreases todo
      {
        var p :| p in todo;
        pages := pages - {p};
        todo := todo - {p};
      }
      revs := revs - {rev};
      known := known - {rev};
      meta := meta - dropMap;
      loose := loose - dropMap;
      assert F() == Freed(forgotten, rev);
      DropKeeps(f, rev);
    }
  }
}

