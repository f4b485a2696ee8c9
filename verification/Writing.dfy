/** One write of a revision, as a change of its mapping at one relative page. */
module Writing {
  import opened Radix
  import opened PageTree
  import opened TreeSteps
  import opened RevisionSteps
  import opened EntrySteps
  import opened TreeWalk

  /** After the write, r reads `leaf` at `index` and what it read before everywhere else;
      all other revisions read what they read before; only pages of r have changed. */
  ghost predicate WritesAt(f: Forest, f': Forest, r: PagePtr, index: nat, leaf: Leaf) {
    && OwnWrites(f, f', r)
    && (r in f.revs && r in f'.revs ==>
          forall offset: nat :: Lookup(f', r, offset) == if offset == index then leaf else Lookup(f, r, offset))
    && (forall s, offset: nat :: s in f.known && s != r && s in f.revs && s in f'.revs ==>
          Lookup(f', s, offset) == Lookup(f, s, offset))
  }

  /** A fetch followed by a write is a write. */
  lemma FetchThenWrite(f: Forest, g: Forest, h: Forest, r: PagePtr, index: nat, leaf: Leaf)
    requires Fetches(f, g, r) && r in f.known && r in f.revs && WritesAt(g, h, r, index, leaf)
    ensures WritesAt(f, h, r, index, leaf)
  {
    assert OwnWrites(f, h, r);
    forall offset: nat
      ensures Lookup(h, r, offset) == if offset == index then leaf else Lookup(f, r, offset)
    {
      assert Lookup(g, r, offset) == Lookup(f, r, offset);
    }
    forall s, offset: nat | s in f.known && s != r && s in f.revs && s in h.revs
      ensures Lookup(h, s, offset) == Lookup(f, s, offset)
    {
      assert Lookup(g, s, offset) == Lookup(f, s, offset);
    }
  }

  lemma FetchIsIdleWrite(f: Forest, g: Forest, r: PagePtr, index: nat)
    requires Fetches(f, g, r) && r in f.known && r in f.revs
    ensures WritesAt(f, g, r, index, Lookup(f, r, index))
  {
    assert forall s, offset: nat :: s in f.known && s in f.revs && s in g.revs ==>
        Lookup(g, s, offset) == Lookup(f, s, offset);
  }

  // ----- the entry of a relative page -----

  lemma {:induction false} AlignedPath(pages: map<PagePtr, Page>, x: PagePtr, level: nat, offset: nat)
    ensures InfoPageAt(pages, x, level, offset - offset % INFO_POINTERS) == InfoPageAt(pages, x, level, offset)
    decreases level
  {
    if x in pages && level >= 2 {
      AlignedDigits(level, offset);
      AlignedPath(pages, Kid(pages[x], SlotOf(level, offset)), level - 1, RestOf(level, offset));
    }
  }

  /** Rounding an offset down to a PageInfoPage boundary changes only its last digit. */
  lemma AlignedDigits(level: nat, offset: nat)
    requires level >= 2
    ensures SlotOf(level, offset - offset % INFO_POINTERS) == SlotOf(level, offset)
    ensures RestOf(level, offset - offset % INFO_POINTERS)
          == RestOf(level, offset) - RestOf(level, offset) % INFO_POINTERS
  {
    var a, slot, rest := Covered(level - 1), SlotOf(level, offset), RestOf(level, offset);
    var aligned := offset - offset % INFO_POINTERS;
    SlotIsQuotient(level, offset);
    SlotIsQuotient(level, aligned);
    CoveredMultiple(level - 1);
    RoundDown(offset, slot, a, rest);
    DivUnique(aligned, a, slot, rest - rest % INFO_POINTERS);
  }

  /** The covered area ends at a PageInfoPage boundary. */
  lemma AlignedBelow(level: nat, offset: nat)
    requires level >= 1
    ensures offset < Covered(level) <==> offset - offset % INFO_POINTERS < Covered(level)
  {
    CoveredMultiple(level);
    var m := Covered(level) / INFO_POINTERS;
    assert Covered(level) == m * INFO_POINTERS;
  }

  lemma RoundDown(offset: nat, slot: nat, a: nat, rest: nat)
    requires a % INFO_POINTERS == 0 && offset == slot * a + rest
    ensures offset % INFO_POINTERS == rest % INFO_POINTERS
  {
    var m := a / INFO_POINTERS;
    assert slot * a == (slot * m) * INFO_POINTERS by {
      assert a == m * INFO_POINTERS;
    }
    var t := slot * m;
    assert t >= 0;
    DivUnique(offset, INFO_POINTERS, t + rest / INFO_POINTERS, rest % INFO_POINTERS);
  }

  ghost predicate AtEntry(f: Forest, r: PagePtr, index: nat) {
    && r in f.known && r in f.revs && f.revs[r].writable && f.loose == {}
    && Inv(f) && Writable(f, r, index)
    && index % INFO_POINTERS < |f.pages[EntryPage(f, r, index)].infos|
  }

  ghost function Entry(f: Forest, r: PagePtr, index: nat): PageInfo
    requires AtEntry(f, r, index)
  {
    f.pages[EntryPage(f, r, index)].infos[index % INFO_POINTERS]
  }

  lemma EntryIsLeaf(f: Forest, r: PagePtr, index: nat)
    requires AtEntry(f, r, index)
    ensures Lookup(f, r, index).info == Entry(f, r, index)
  {
    OwnAddress(f, r, index);
    EntryOfLeaf(f.pages, f.revs[r].root.page, f.revs[r].level, index);
  }

  /** The revision id in an entry tells whether r allocated the segment page. */
  lemma EntryOwner(f: Forest, r: PagePtr, index: nat)
    requires AtEntry(f, r, index) && Entry(f, r, index).page != 0
    ensures var p := Entry(f, r, index).page;
            && p in f.pages && p in f.meta && f.pages[p].SegmentPage? && f.meta[p].level == 0
            && (Entry(f, r, index).brid == f.revs[r].brid <==> f.meta[p].owner == r)
            && Lookup(f, r, index) == Leaf(Entry(f, r, index), f.pages[p].data)
  {
    var q, i := EntryPage(f, r, index), index % INFO_POINTERS;
    assert Kid(f.pages[q], i) == Entry(f, r, index).page;
    assert KidOk(f, q, i);
    assert Shape(f.pages[Entry(f, r, index).page], 0);
    EntryIsLeaf(f, r, index);
    LeafData(f.pages, f.revs[r].root.page, f.revs[r].level, index);
  }

  /** A leaf carries the bytes of the segment page that its entry names. */
  lemma {:induction false} LeafData(pages: map<PagePtr, Page>, x: PagePtr, level: nat, offset: nat)
    requires 0 !in pages
    ensures var leaf := LeafAt(pages, x, level, offset); leaf == LeafOfInfo(pages, leaf.info)
    decreases level
  {
    if x in pages && level >= 2 {
      LeafData(pages, Kid(pages[x], SlotOf(level, offset)), level - 1, RestOf(level, offset));
    }
  }

  /** The relative page has a segment page in the mapping of r. */
  ghost predicate Present(f: Forest, r: PagePtr, index: nat)
    requires r in f.revs
  {
    index < Covered(f.revs[r].level) && Lookup(f, r, index).info.page != 0
  }

  /** After a fetch for writing, the entry of the page can be written and reads as before. */
  lemma FetchedEntry(f: Forest, g: Forest, r: PagePtr, index: nat)
    requires Fetches(f, g, r) && r in f.known && r in f.revs && f.revs[r].writable
    requires Inv(g) && g.loose == {} && r in g.revs && Writable(g, r, index)
    ensures AtEntry(g, r, index)
    ensures Entry(g, r, index) == Lookup(f, r, index).info && Lookup(g, r, index) == Lookup(f, r, index)
    ensures g.revs[r].brid == f.revs[r].brid
  {
    assert Shape(g.pages[EntryPage(g, r, index)], 1);
    EntryIsLeaf(g, r, index);
    assert Lookup(g, r, index) == Lookup(f, r, index);
  }

  // ----- a new segment page -----

  ghost function SegmentHung(f: Forest, r: PagePtr, index: nat, p: PagePtr, data: seq<bv8>, tag: nat): Forest
    requires AtEntry(f, r, index) && Fresh(f, p)
  {
    Hung(Alloced(f, r, p, SegmentPage(data), 0), EntryPage(f, r, index), index % INFO_POINTERS, p, tag)
  }

  lemma SegmentFits(f: Forest, r: PagePtr, index: nat, p: PagePtr, data: seq<bv8>)
    requires AtEntry(f, r, index) && Fresh(f, p)
    requires var k := Entry(f, r, index).page; k == 0 || (k in f.meta && f.meta[k].owner != r)
    ensures var mid := Alloced(f, r, p, SegmentPage(data), 0);
            && Inv(mid) && SameLookups(f, mid)
            && EntryPage(mid, r, index) == EntryPage(f, r, index) && Writable(mid, r, index)
            && CanHang(mid, EntryPage(f, r, index), index % INFO_POINTERS, p)
  {
    hide KidsOk, LinksOk, RootsOk, CountsOk, SameLookups, AncOk, Covered;
    var q := EntryPage(f, r, index);
    var mid := Alloced(f, r, p, SegmentPage(data), 0);
    OwnAddress(f, r, index);
    AllocKeeps(f, r, p, SegmentPage(data), 0);
    AllocLookups(f, r, p, SegmentPage(data), 0);
    assert Kid(f.pages[q], index % INFO_POINTERS) == Entry(f, r, index).page;
    AllocPath(f.pages, p, SegmentPage(data), f.revs[r].root.page, f.revs[r].level, index);
    assert f.meta[q].level == 1 by {
      assert Shape(f.pages[q], f.meta[q].level);
    }
  }

  /** A page that nothing points to is on no path. */
  lemma {:induction false} AllocPath(pages: map<PagePtr, Page>, p: PagePtr, pg: Page, x: PagePtr, level: nat,
      offset: nat)
    requires p !in pages
    requires InfoPageAt(pages, x, level, offset) != 0
    ensures InfoPageAt(pages[p := pg], x, level, offset) == InfoPageAt(pages, x, level, offset)
    decreases level
  {
    if x in pages && level >= 2 {
      AllocPath(pages, p, pg, Kid(pages[x], SlotOf(level, offset)), level - 1, RestOf(level, offset));
    }
  }

  lemma SegmentLookups(f: Forest, r: PagePtr, index: nat, p: PagePtr, data: seq<bv8>, tag: nat)
    requires AtEntry(f, r, index) && Fresh(f, p)
    requires var k := Entry(f, r, index).page; k == 0 || (k in f.meta && f.meta[k].owner != r)
    ensures Inv(SegmentHung(f, r, index, p, data, tag))
    ensures forall offset: nat :: Lookup(SegmentHung(f, r, index, p, data, tag), r, offset)
                 == if offset == index then Leaf(PageInfo(p, f.revs[r].brid, tag), data) else Lookup(f, r, offset)
    ensures forall s, offset: nat :: s in f.known && s != r && s in f.revs ==>
              Lookup(SegmentHung(f, r, index, p, data, tag), s, offset) == Lookup(f, s, offset)
  {
    var q, mid, f' := EntryPage(f, r, index), Alloced(f, r, p, SegmentPage(data), 0),
        SegmentHung(f, r, index, p, data, tag);
    SegmentFits(f, r, index, p, data);
    HangKeeps(mid, q, index % INFO_POINTERS, p, tag);
    HangSegmentLookup(mid, r, index, p, tag);
    hide Inv, Lookup, CanHang, Writable;
    forall s, offset: nat | s in f.known && s in f.revs
      ensures Lookup(f', s, offset) == if s == r && offset == index then Leaf(PageInfo(p, f.revs[r].brid, tag), data)
            else Lookup(f, s, offset)
    {
      assert Lookup(mid, s, offset) == Lookup(f, s, offset);
    }
  }

  lemma SegmentFrame(f: Forest, r: PagePtr, index: nat, p: PagePtr, data: seq<bv8>, tag: nat)
    requires AtEntry(f, r, index) && Fresh(f, p)
    ensures OwnWrites(f, SegmentHung(f, r, index, p, data, tag), r)
          && SegmentHung(f, r, index, p, data, tag).loose == {}
  {
    hide Inv, EntryPage, KidsOk, LinksOk, RootsOk, CountsOk;
    InvPages(f);
  }

  /** Hanging a new segment page is one write, of the given bytes, at its relative page. */
  lemma SegmentWrites(f: Forest, r: PagePtr, index: nat, p: PagePtr, data: seq<bv8>, tag: nat)
    requires AtEntry(f, r, index) && Fresh(f, p)
    requires var k := Entry(f, r, index).page; k == 0 || (k in f.meta && f.meta[k].owner != r)
    ensures var f' := SegmentHung(f, r, index, p, data, tag);
            && Inv(f') && f'.loose == {}
            && WritesAt(f, f', r, index, Leaf(PageInfo(p, f.revs[r].brid, tag), data))
  {
    hide Inv, Lookup, OwnWrites, SegmentHung;
    SegmentLookups(f, r, index, p, data, tag);
    SegmentFrame(f, r, index, p, data, tag);
  }

  lemma {:induction false} SetInfoPath(f: Forest, q: PagePtr, pg: Page, x: PagePtr, level: nat, offset: nat)
    requires PagesOk(f) && KidsOk(f) && AncOk(f) && q in f.pages && f.pages[q].InfoPage?
    requires x == 0 || (x in f.pages && f.meta[x].owner in f.known && f.meta[x].level == level)
    ensures InfoPageAt(f.pages[q := pg], x, level, offset) == InfoPageAt(f.pages, x, level, offset)
    decreases level
  {
    if x != 0 && level >= 2 {
      var c := Kid(f.pages[x], SlotOf(level, offset));
      if c != 0 {
        assert KidOk(f, x, SlotOf(level, offset));
      }
      SetInfoPath(f, q, pg, c, level - 1, RestOf(level, offset));
    }
  }

  /** The entry names the new page afterwards. */
  lemma SegmentEntry(f: Forest, r: PagePtr, index: nat, p: PagePtr, data: seq<bv8>, tag: nat)
    requires AtEntry(f, r, index) && Fresh(f, p)
    requires var k := Entry(f, r, index).page; k == 0 || (k in f.meta && f.meta[k].owner != r)
    requires Inv(SegmentHung(f, r, index, p, data, tag)) && SegmentHung(f, r, index, p, data, tag).loose == {}
    ensures AtEntry(SegmentHung(f, r, index, p, data, tag), r, index)
    ensures Entry(SegmentHung(f, r, index, p, data, tag), r, index) == PageInfo(p, f.revs[r].brid, tag)
  {
    hide Inv, EntryPage;
    SegmentPath(f, r, index, p, data, tag);
    InvPages(f);
    InvPages(SegmentHung(f, r, index, p, data, tag));
  }

  /** Hanging a segment page moves no PageInfoPage. */
  lemma SegmentPath(f: Forest, r: PagePtr, index: nat, p: PagePtr, data: seq<bv8>, tag: nat)
    requires AtEntry(f, r, index) && Fresh(f, p)
    ensures r in SegmentHung(f, r, index, p, data, tag).revs
    ensures EntryPage(SegmentHung(f, r, index, p, data, tag), r, index) == EntryPage(f, r, index)
  {
    hide KidsOk, LinksOk, CountsOk, RootsOk;
    var q, i, v := EntryPage(f, r, index), index % INFO_POINTERS, f.revs[r];
    var pg := SetKid(f.pages[q], i, p, v.brid, tag);
    KnownHasRoot(f, r);
    SetInfoPath(f, q, pg, v.root.page, v.level, index);
    AllocPath(f.pages[q := pg], p, SegmentPage(data), v.root.page, v.level, index);
    assert SegmentHung(f, r, index, p, data, tag).pages == f.pages[q := pg][p := SegmentPage(data)];
  }

  // ----- writes to pages that are already owned -----

  lemma TagWrites(f: Forest, r: PagePtr, index: nat, tag: nat)
    requires AtEntry(f, r, index)
    ensures var f' := Tagged(f, EntryPage(f, r, index), index % INFO_POINTERS, tag);
            && Inv(f') && f'.loose == {}
            && WritesAt(f, f', r, index, Lookup(f, r, index).(info := Entry(f, r, index).(tag := tag)))
  {
    hide Inv, Lookup, EntryPage;
    TagKeeps(f, r, index, tag);
    EntryIsLeaf(f, r, index);
    InvPages(f);
    assert OwnWrites(f, Tagged(f, EntryPage(f, r, index), index % INFO_POINTERS, tag), r);
  }

  lemma StoreWrites(f: Forest, r: PagePtr, index: nat, data: seq<bv8>)
    requires AtEntry(f, r, index) && Entry(f, r, index).page != 0 && Entry(f, r, index).brid == f.revs[r].brid
    ensures var f' := Stored(f, Entry(f, r, index).page, data);
            && Inv(f') && f'.loose == {}
            && WritesAt(f, f', r, index, Leaf(Entry(f, r, index), data))
  {
    EntryOwner(f, r, index);
    StoreKeeps(f, r, index, data);
    hide Inv, Lookup, EntryPage;
    InvPages(f);
    assert OwnWrites(f, Stored(f, Entry(f, r, index).page, data), r);
  }

  /** A write changes no owner and no level. */
  lemma WriteBounded(f: Forest, g: Forest, r: PagePtr, index: nat, leaf: Leaf)
    requires WritesAt(f, g, r, index, leaf) && r in f.revs && Owners(f) && g.revs[r].level == f.revs[r].level
    ensures Owners(g) && g.known == f.known && r in g.revs
  {
  }

  lemma StoreEntry(f: Forest, r: PagePtr, index: nat, data: seq<bv8>)
    requires AtEntry(f, r, index) && Entry(f, r, index).page != 0
    requires Inv(Stored(f, Entry(f, r, index).page, data))
    ensures AtEntry(Stored(f, Entry(f, r, index).page, data), r, index)
    ensures Entry(Stored(f, Entry(f, r, index).page, data), r, index) == Entry(f, r, index)
  {
    EntryOwner(f, r, index);
    StorePath(f.pages, Entry(f, r, index).page, data, f.revs[r].root.page, f.revs[r].level, index);
  }

  lemma {:induction false} StorePath(pages: map<PagePtr, Page>, p: PagePtr, data: seq<bv8>, x: PagePtr, level: nat,
      offset: nat)
    requires p in pages && pages[p].SegmentPage? && 0 !in pages
    ensures InfoPageAt(pages[p := SegmentPage(data)], x, level, offset) == InfoPageAt(pages, x, level, offset)
    decreases level
  {
    if x in pages && level >= 2 {
      StorePath(pages, p, data, Kid(pages[x], SlotOf(level, offset)), level - 1, RestOf(level, offset));
    }
  }

  /** Of two writes at the same place the second one counts. */
  lemma WriteThenWrite(f: Forest, g: Forest, h: Forest, r: PagePtr, index: nat, first: Leaf, second: Leaf)
    requires WritesAt(f, g, r, index, first) && WritesAt(g, h, r, index, second) && r in f.known && r in f.revs
    ensures WritesAt(f, h, r, index, second)
  {
    assert OwnWrites(f, h, r);
    forall offset: nat
      ensures Lookup(h, r, offset) == if offset == index then second else Lookup(f, r, offset)
    {
      assert Lookup(g, r, offset) == if offset == index then first else Lookup(f, r, offset);
    }
    forall s, offset: nat | s in f.known && s != r && s in f.revs && s in h.revs
      ensures Lookup(h, s, offset) == Lookup(f, s, offset)
    {
      assert Lookup(g, s, offset) == Lookup(f, s, offset);
    }
  }

  /** A relative page that is not present has an empty entry. */
  lemma AbsentEntry(f: Forest, r: PagePtr, index: nat)
    requires Inv(f) && r in f.known && r in f.revs && !Present(f, r, index)
    ensures Lookup(f, r, index).info.page == 0
  {
  }
}
