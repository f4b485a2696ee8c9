/** Updates at one relative page: what a writing revision reads afterwards, and
    why no other revision can notice. */
module EntrySteps {
  import opened Radix
  import opened PageTree
  import opened TreeSteps

  // ----- isolation -----

  /** An update that leaves all pages of other revisions alone is invisible to all
      revisions that do not inherit from r; and nobody inherits from a writable one. */
  lemma Isolation(f: Forest, f': Forest, r: PagePtr)
    requires Inv(f) && r in f.known && r in f.revs && f.revs[r].writable && 0 !in f'.pages
    requires forall x :: x in f.pages && f.meta[x].owner != r ==> x in f'.pages && f'.pages[x] == f.pages[x]
    requires forall s :: s in f.known && s != r ==> s in f'.revs && f'.revs[s] == f.revs[s]
    ensures forall s, offset: nat :: s in f.known && s != r && s in f.revs && s in f'.revs ==>
              Lookup(f', s, offset) == Lookup(f, s, offset)
  {
    hide Lookup, Inv;
    forall s, offset: nat | s in f.known && s != r && s in f.revs && s in f'.revs
      ensures Lookup(f', s, offset) == Lookup(f, s, offset)
    {
      Isolated(f, f', r, s, offset);
    }
  }

  lemma Isolated(f: Forest, f': Forest, r: PagePtr, s: PagePtr, offset: nat)
    requires Inv(f) && r in f.known && r in f.revs && f.revs[r].writable && 0 !in f'.pages
    requires forall x :: x in f.pages && f.meta[x].owner != r ==> x in f'.pages && f'.pages[x] == f.pages[x]
    requires s in f.known && s != r && s in f.revs && s in f'.revs && f'.revs[s] == f.revs[s]
    ensures Lookup(f', s, offset) == Lookup(f, s, offset)
  {
    hide Covered, LeafAt, CountsOk, LinksOk, KidsOk;
    assert RootOk(f, s);
    AncClosed(f, s);
    assert r !in f.anc[s];
    LeafFrame(f, f.anc[s] + {s}, f'.pages, f.revs[s].root.page, f.revs[s].level, offset);
  }

  // ----- addresses -----

  ghost function EntryPage(f: Forest, r: PagePtr, offset: nat): PagePtr
    requires r in f.revs
  {
    InfoPageAt(f.pages, f.revs[r].root.page, f.revs[r].level, offset)
  }

  /** The PageInfoPage of the offset belongs to revision r, so r may write its entries. */
  ghost predicate Writable(f: Forest, r: PagePtr, offset: nat)
    requires PagesOk(f) && r in f.revs
  {
    var q := EntryPage(f, r, offset);
    && r in f.known && offset < Covered(f.revs[r].level)
    && q in f.pages && f.meta[q].owner == r && f.pages[q].InfoPage?
  }

  lemma OwnAddress(f: Forest, r: PagePtr, offset: nat)
    requires Inv(f) && r in f.revs && Writable(f, r, offset)
    ensures var q := EntryPage(f, r, offset);
            q !in f.loose && offset == f.meta[q].base + offset % INFO_POINTERS
    ensures InfoIndex(f.revs[r].level, offset) == offset % INFO_POINTERS
  {
    var v := f.revs[r];
    assert RootOk(f, r);
    AncClosed(f, r);
    if f.meta[v.root.page].owner != r {
      PathOwner(f, f.anc[r], v.root.page, v.level, offset);
    }
    PathBase(f, r, v.root.page, v.level, offset);
    InfoIndexIsRemainder(v.level, offset);
    NotLoose(f, v.root.page, v.level, offset);
  }

  lemma {:induction false} NotLoose(f: Forest, x: PagePtr, level: nat, offset: nat)
    requires PagesOk(f) && KidsOk(f) && AncOk(f) && x in f.pages && x !in f.loose && f.meta[x].owner in f.known
          && f.meta[x].level == level
    ensures InfoPageAt(f.pages, x, level, offset) !in f.loose || InfoPageAt(f.pages, x, level, offset) == 0
    decreases level
  {
    if level >= 2 {
      var c := Kid(f.pages[x], SlotOf(level, offset));
      if c != 0 {
        assert KidOk(f, x, SlotOf(level, offset));
        NotLoose(f, c, level - 1, RestOf(level, offset));
      }
    }
  }

  /** Rewriting one entry changes the mapping of its revision at one relative page only. */
  lemma EntryLookup(f: Forest, r: PagePtr, index: nat, info: PageInfo, f': Forest)
    requires Inv(f) && r in f.revs && Writable(f, r, index)
    requires var q := EntryPage(f, r, index);
             f'.pages == f.pages[q := InfoPage(f.pages[q].infos[index % INFO_POINTERS := info])]
    requires f'.revs == f.revs
    ensures forall offset: nat ::
              Lookup(f', r, offset) == if offset == index then LeafOfInfo(f.pages, info) else Lookup(f, r, offset)
  {
    var v, q, i := f.revs[r], EntryPage(f, r, index), index % INFO_POINTERS;
    assert RootOk(f, r);
    OwnAddress(f, r, index);
    forall offset: nat
      ensures Lookup(f', r, offset) == if offset == index then LeafOfInfo(f.pages, info) else Lookup(f, r, offset)
    {
      SetInfoLeaf(f, q, i, info, v.root.page, v.level, offset);
      if offset < Covered(v.level) && EntryPage(f, r, offset) == q {
        OwnAddress(f, r, offset);
      }
    }
  }

  // ----- segment pages -----

  /** Hanging a new segment page into the entry of a relative page. */
  lemma HangSegmentLookup(f: Forest, r: PagePtr, index: nat, p: PagePtr, tag: nat)
    requires Inv(f) && r in f.revs && Writable(f, r, index) && f.revs[r].writable
    requires CanHang(f, EntryPage(f, r, index), index % INFO_POINTERS, p)
    ensures var f' := Hung(f, EntryPage(f, r, index), index % INFO_POINTERS, p, tag);
            && (forall offset: nat ::
                  Lookup(f', r, offset) == if offset == index then LeafOfInfo(f.pages, PageInfo(p, f.revs[r].brid, tag))
                      else Lookup(f, r, offset))
            && (forall s, offset: nat :: s in f.known && s != r && s in f.revs ==>
                  Lookup(f', s, offset) == Lookup(f, s, offset))
  {
    var f' := Hung(f, EntryPage(f, r, index), index % INFO_POINTERS, p, tag);
    EntryLookup(f, r, index, PageInfo(p, f.revs[r].brid, tag), f');
    Isolation(f, f', r);
  }

  ghost function Tagged(f: Forest, q: PagePtr, i: nat, tag: nat): Forest
    requires q in f.pages && f.pages[q].InfoPage? && i < |f.pages[q].infos|
  {
    f.(pages := f.pages[q := InfoPage(f.pages[q].infos[i := f.pages[q].infos[i].(tag := tag)])])
  }

  lemma TagKeeps(f: Forest, r: PagePtr, index: nat, tag: nat)
    requires Inv(f) && r in f.revs && Writable(f, r, index) && f.revs[r].writable
    ensures var f' := Tagged(f, EntryPage(f, r, index), index % INFO_POINTERS, tag);
            && Inv(f')
            && (forall offset: nat ::
                  Lookup(f', r, offset) == if offset == index
                      then Lookup(f, r, index).(info := Lookup(f, r, index).info.(tag := tag))
                                           else Lookup(f, r, offset))
            && (forall s, offset: nat :: s in f.known && s != r && s in f.revs ==>
                  Lookup(f', s, offset) == Lookup(f, s, offset))
  {
    hide Lookup, RootsOk, LinksOk, KidsOk, CountsOk, Covered, EntryPage;
    var q, i := EntryPage(f, r, index), index % INFO_POINTERS;
    var f' := Tagged(f, q, i, tag);
    TagStructure(f, q, i, tag);
    EntryLookup(f, r, index, f.pages[q].infos[i].(tag := tag), f');
    SameEntry(f, r, index);
    Isolation(f, f', r);
  }

  /** What an entry reads as. */
  lemma SameEntry(f: Forest, r: PagePtr, index: nat)
    requires Inv(f) && r in f.revs && Writable(f, r, index)
    ensures var q := EntryPage(f, r, index);
            && q in f.pages && f.pages[q].InfoPage? && index % INFO_POINTERS < |f.pages[q].infos|
            && Lookup(f, r, index) == LeafOfInfo(f.pages, f.pages[q].infos[index % INFO_POINTERS])
  {
    hide Lookup, RootsOk, LinksOk, KidsOk, CountsOk, Covered, EntryPage;
    var q, i := EntryPage(f, r, index), index % INFO_POINTERS;
    var infos := f.pages[q].infos;
    assert infos[i := infos[i]] == infos;
    assert f.pages[q := InfoPage(infos)] == f.pages;
    EntryLookup(f, r, index, infos[i], f);
  }

  lemma TagStructure(f: Forest, q: PagePtr, i: nat, tag: nat)
    requires Inv(f) && q in f.pages && f.pages[q].InfoPage? && i < |f.pages[q].infos|
    ensures Inv(Tagged(f, q, i, tag))
  {
    var f' := Tagged(f, q, i, tag);
    assert forall j: nat :: Kid(f'.pages[q], j) == Kid(f.pages[q], j);
    forall x, j: nat | x in f'.pages && f'.meta[x].owner in f'.known && Kid(f'.pages[x], j) != 0
      ensures KidOk(f', x, j)
    {
      assert KidOk(f, x, j);
    }
    SamePlaces(f, f');
  }

  /** Roots, links and counters depend on the slots, not on other page contents. */
  lemma SamePlaces(f: Forest, f': Forest)
    requires Inv(f) && f'.meta == f.meta && f'.revs == f.revs && f'.anc == f.anc && f'.known == f.known
          && f'.loose == f.loose
    requires f'.pages.Keys == f.pages.Keys && PagesOk(f')
    requires forall x, j: nat :: x in f.pages ==> Kid(f'.pages[x], j) == Kid(f.pages[x], j)
    ensures RootsOk(f') && LinksOk(f') && CountsOk(f')
  {
    SameRoots(f, f');
    SameLinks(f, f');
    SameOwners(f, f');
  }

  lemma SameRoots(f: Forest, f': Forest)
    requires f.known <= f.revs.Keys && RootsOk(f)
    requires f'.meta == f.meta && f'.revs == f.revs && f'.anc == f.anc && f'.known == f.known && f'.loose == f.loose
    requires f'.pages.Keys == f.pages.Keys
    ensures RootsOk(f')
  {
    forall s | s in f'.known
      ensures RootOk(f', s)
    {
      assert RootOk(f, s);
    }
  }

  lemma SameLinks(f: Forest, f': Forest)
    requires PagesOk(f) && LinksOk(f)
    requires f'.meta == f.meta && f'.revs == f.revs && f'.known == f.known && f'.loose == f.loose
    requires f'.pages.Keys == f.pages.Keys && PagesOk(f')
    requires forall x, j: nat :: x in f.pages ==> Kid(f'.pages[x], j) == Kid(f.pages[x], j)
    ensures LinksOk(f')
  {
    hide LinkOk;
    forall x | x in f'.pages && f'.meta[x].owner in f'.known && x !in f'.loose
      ensures LinkOk(f', x)
    {
      SameLink(f, f', x);
    }
  }

  lemma SameLink(f: Forest, f': Forest, x: PagePtr)
    requires PagesOk(f) && x in f.pages && f.meta[x].owner in f.known && LinkOk(f, x)
    requires f'.meta == f.meta && f'.revs == f.revs && f'.known == f.known && f'.loose == f.loose
    requires f'.pages.Keys == f.pages.Keys && PagesOk(f')
    requires forall y, j: nat :: y in f.pages ==> Kid(f'.pages[y], j) == Kid(f.pages[y], j)
    ensures LinkOk(f', x)
  {
  }

  ghost function Stored(f: Forest, p: PagePtr, data: seq<bv8>): Forest {
    f.(pages := f.pages[p := SegmentPage(data)])
  }

  lemma StoreStructure(f: Forest, p: PagePtr, data: seq<bv8>)
    requires Inv(f) && p in f.pages && f.pages[p].SegmentPage?
    ensures Inv(Stored(f, p, data))
  {
    var f' := Stored(f, p, data);
    forall x, j: nat | x in f'.pages && f'.meta[x].owner in f'.known && Kid(f'.pages[x], j) != 0
      ensures KidOk(f', x, j)
    {
      assert KidOk(f, x, j);
    }
    SamePlaces(f, f');
  }

  /** A segment page of r is the page of one relative page in r's mapping. */
  lemma OneAddress(f: Forest, r: PagePtr, p: PagePtr, offset: nat)
    requires Inv(f) && r in f.known && r in f.revs && p in f.pages && f.meta[p].owner == r
    requires offset < Covered(f.revs[r].level) && Lookup(f, r, offset).info.page == p
    ensures Writable(f, r, offset) && f.meta[p].base == offset
  {
    hide CountsOk, LinksOk, KidsOk, LeafAt;
    var v := f.revs[r];
    assert RootOk(f, r);
    EntryOfLeaf(f.pages, v.root.page, v.level, offset);
    OwnEntry(f, r, p, offset, EntryPage(f, r, offset), InfoIndex(v.level, offset));
    OwnAddress(f, r, offset);
    assert Covered(0) == 1;
  }

  /** A PageInfoPage of r's tree with an entry for a page of r belongs to r. */
  lemma OwnEntry(f: Forest, r: PagePtr, p: PagePtr, offset: nat, q: PagePtr, i: nat)
    requires Inv(f) && r in f.known && r in f.revs && p in f.pages && f.meta[p].owner == r
    requires q == EntryPage(f, r, offset) && EntryAt(f.pages, q, i).page == p
    ensures q in f.pages && f.meta[q].owner == r && Kid(f.pages[q], i) == p && KidOk(f, q, i)
  {
    hide CountsOk, LinksOk;
    assert RootOk(f, r);
    AncClosed(f, r);
    PathOwner(f, f.anc[r] + {r}, f.revs[r].root.page, f.revs[r].level, offset);
    assert KidOk(f, q, i);
  }

  ghost function EntryAt(pages: map<PagePtr, Page>, q: PagePtr, i: nat): PageInfo {
    if q in pages && pages[q].InfoPage? && i < |pages[q].infos| then pages[q].infos[i] else NULL_INFO
  }

  /** A leaf is the entry at the index of the offset in the PageInfoPage on its path. */
  lemma {:induction false} EntryOfLeaf(pages: map<PagePtr, Page>, x: PagePtr, level: nat, offset: nat)
    requires 0 !in pages
    ensures LeafAt(pages, x, level, offset).info
          == EntryAt(pages, InfoPageAt(pages, x, level, offset), InfoIndex(level, offset))
    decreases level
  {
    if x in pages && level >= 2 {
      EntryOfLeaf(pages, Kid(pages[x], SlotOf(level, offset)), level - 1, RestOf(level, offset));
    }
  }

  /** Storing bytes in the writer's own segment page changes the bytes at one relative page only. */
  lemma StoreKeeps(f: Forest, r: PagePtr, index: nat, data: seq<bv8>)
    requires Inv(f) && r in f.known && r in f.revs && f.revs[r].writable && index < Covered(f.revs[r].level)
    requires var p := Lookup(f, r, index).info.page; p in f.pages && f.meta[p].owner == r && f.pages[p].SegmentPage?
    ensures var f' := Stored(f, Lookup(f, r, index).info.page, data);
            && Inv(f')
            && (forall offset: nat ::
                  Lookup(f', r, offset) == if offset == index then Lookup(f, r, index).(data := data)
                      else Lookup(f, r, offset))
            && (forall s, offset: nat :: s in f.known && s != r && s in f.revs ==>
                  Lookup(f', s, offset) == Lookup(f, s, offset))
  {
    var v, p := f.revs[r], Lookup(f, r, index).info.page;
    var f' := Stored(f, p, data);
    StoreStructure(f, p, data);
    OneAddress(f, r, p, index);
    forall offset: nat
      ensures Lookup(f', r, offset) == if offset == index then Lookup(f, r, index).(data := data)
            else Lookup(f, r, offset)
    {
      SetSegmentLeaf(f.pages, p, data, v.root.page, v.level, offset);
      if offset < Covered(v.level) && Lookup(f, r, offset).info.page == p {
        OneAddress(f, r, p, offset);
      }
    }
    Isolation(f, f', r);
  }
}
