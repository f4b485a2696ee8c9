/** The updates that act on whole revisions: linking and raising the root, creating,
    committing and freeing a revision. */
module RevisionSteps {
  import opened Radix
  import opened PageTree
  import opened TreeSteps

  // ----- what no step may change: the mappings of the other revisions -----

  /** Every known revision reads the same before and after. */
  ghost predicate SameLookups(f: Forest, f': Forest) {
    forall s, offset: nat :: s in f.known && s in f.revs && s in f'.revs ==>
        Lookup(f', s, offset) == Lookup(f, s, offset)
  }

  lemma AllocLookups(f: Forest, r: PagePtr, p: PagePtr, pg: Page, level: nat)
    requires Inv(f) && r in f.known && Fresh(f, p)
    ensures SameLookups(f, Alloced(f, r, p, pg, level))
  {
    var f' := Alloced(f, r, p, pg, level);
    forall s, offset: nat | s in f.known && s in f.revs
      ensures Lookup(f', s, offset) == Lookup(f, s, offset)
    {
      assert RootOk(f, s);
      LeafFrame(f, f.known, f'.pages, f.revs[s].root.page, f.revs[s].level, offset);
    }
  }

  lemma HangLookups(f: Forest, q: PagePtr, i: nat, p: PagePtr, tag: nat)
    requires Inv(f) && CanHang(f, q, i, p) && f.meta[p].level >= 1
    requires Mirrors(f.pages, p, Kid(f.pages[q], i), f.meta[p].level)
    ensures f.meta[q].owner in f.revs
    ensures SameLookups(f, Hung(f, q, i, p, tag))
  {
    var f' := Hung(f, q, i, p, tag);
    forall s, offset: nat | s in f.known && s in f.revs
      ensures Lookup(f', s, offset) == Lookup(f, s, offset)
    {
      assert RootOk(f, s);
      HangLeaf(f, q, i, p, tag, f.revs[s].root.page, f.revs[s].level, offset);
    }
  }

  // ----- replacing a stolen root -----

  ghost function Rooted(f: Forest, r: PagePtr, p: PagePtr): Forest
    requires r in f.revs
  {
    f.(revs := f.revs[r := f.revs[r].(root := Ref(p, false))], loose := f.loose - {p})
  }

  ghost predicate CanRoot(f: Forest, r: PagePtr, p: PagePtr)
    requires PagesOk(f) && r in f.revs
  {
    && r in f.known && p in f.pages && p in f.loose && f.revs[r].root.stolen
    && f.meta[p] == Meta(r, f.revs[r].level, 0, RootSlot)
  }

  lemma RootKids(f: Forest, r: PagePtr, p: PagePtr)
    requires PagesOk(f) && KidsOk(f) && r in f.revs && CanRoot(f, r, p)
    ensures KidsOk(Rooted(f, r, p))
  {
    var f' := Rooted(f, r, p);
    forall x, i: nat | x in f'.pages && f'.meta[x].owner in f'.known && Kid(f'.pages[x], i) != 0
      ensures KidOk(f', x, i)
    {
      assert KidOk(f, x, i);
    }
  }

  lemma RootKeeps(f: Forest, r: PagePtr, p: PagePtr)
    requires Inv(f) && r in f.revs && CanRoot(f, r, p)
    ensures Inv(Rooted(f, r, p))
  {
    hide LinkOk, KidsOk, RootOk, CountsOk;
    var f' := Rooted(f, r, p);
    RootKids(f, r, p);
    SameOwners(f, f');
    forall s | s in f'.known
      ensures RootOk(f', s)
    {
      RootRoot(f, r, p, s);
    }
    forall x | x in f'.pages && f'.meta[x].owner in f'.known && x !in f'.loose
      ensures LinkOk(f', x)
    {
      RootLink(f, r, p, x);
    }
  }

  lemma RootRoot(f: Forest, r: PagePtr, p: PagePtr, s: PagePtr)
    requires Inv(f) && r in f.revs && CanRoot(f, r, p) && s in f.known && s in f.revs
    ensures s in Rooted(f, r, p).revs && RootOk(Rooted(f, r, p), s)
  {
    hide LinksOk, KidsOk, CountsOk;
    assert RootOk(f, s);
  }

  lemma RootLink(f: Forest, r: PagePtr, p: PagePtr, x: PagePtr)
    requires Inv(f) && r in f.revs && CanRoot(f, r, p) && x in f.pages && x in f.meta
    requires var f' := Rooted(f, r, p); x in f'.pages && x in f'.meta && f'.meta[x].owner in f'.known && x !in f'.loose
    ensures LinkOk(Rooted(f, r, p), x)
  {
    RootKids(f, r, p);
    if x != p {
      assert LinkOk(f, x);
      assert RootOk(f, r);
    }
  }

  lemma RootLookups(f: Forest, r: PagePtr, p: PagePtr)
    requires Inv(f) && r in f.revs && CanRoot(f, r, p) && f.revs[r].level >= 1
    requires Mirrors(f.pages, p, f.revs[r].root.page, f.revs[r].level)
    ensures SameLookups(f, Rooted(f, r, p))
  {
    forall offset: nat
      ensures Lookup(Rooted(f, r, p), r, offset) == Lookup(f, r, offset)
    {
      MirrorLeaf(f.pages, p, f.revs[r].root.page, f.revs[r].level, offset);
    }
  }

  // ----- one more level -----

  function Raised(root: Ref): (p: Page)
    ensures p.IndirectionPage?
  {
    IndirectionPage(seq(INDIRECTION_POINTERS, i => if i == 0 then root else NULL_REF))
  }

  /** increaseIndirectionCoveredArea: the loose page p becomes the root, the old root its first child. */
  ghost function Hoisted(f: Forest, r: PagePtr, p: PagePtr): Forest
    requires r in f.revs && p in f.meta
  {
    var v := f.revs[r];
    var c := v.root.page;
    f.(pages := f.pages[p := Raised(v.root)],
       revs := f.revs[r := v.(root := Ref(p, false), level := v.level + 1)],
       meta := if v.root.stolen || c !in f.meta then f.meta else f.meta[c := f.meta[c].(up := ChildSlot(p, 0))],
       loose := f.loose - {p})
  }

  ghost predicate CanHoist(f: Forest, r: PagePtr, p: PagePtr)
    requires PagesOk(f) && r in f.revs
  {
    && r in f.known && p in f.pages && p in f.loose
    && f.meta[p] == Meta(r, f.revs[r].level + 1, 0, RootSlot)
  }

  lemma HoistKids(f: Forest, r: PagePtr, p: PagePtr)
    requires Inv(f) && r in f.revs && CanHoist(f, r, p)
    ensures PagesOk(Hoisted(f, r, p)) && KidsOk(Hoisted(f, r, p))
  {
    HoistPages(f, r, p);
    hide LinksOk, CountsOk, Covered;
    var f' := Hoisted(f, r, p);
    assert RootOk(f, r);
    HoistedKid(f, r, p);
    forall x, i: nat | x in f'.pages && f'.meta[x].owner in f'.known && Kid(f'.pages[x], i) != 0
      ensures KidOk(f', x, i)
    {
      hide KidsOk, Shape;
      if x != p {
        OtherKid(f, r, p, x, i);
      }
    }
  }

  lemma HoistPages(f: Forest, r: PagePtr, p: PagePtr)
    requires Inv(f) && r in f.revs && CanHoist(f, r, p)
    ensures PagesOk(Hoisted(f, r, p))
  {
    hide LinksOk, CountsOk, KidsOk, AncOk, Covered;
    assert RootOk(f, r);
  }

  lemma HoistedKid(f: Forest, r: PagePtr, p: PagePtr)
    requires PagesOk(f) && AncOk(f) && r in f.revs && CanHoist(f, r, p) && RootOk(f, r) && p in Hoisted(f, r, p).meta
    ensures KidOk(Hoisted(f, r, p), p, 0) && forall i: nat :: i > 0 ==> Kid(Hoisted(f, r, p).pages[p], i) == 0
  {
    assert Kid(Hoisted(f, r, p).pages[p], 0) == f.revs[r].root.page;
  }

  lemma OtherKid(f: Forest, r: PagePtr, p: PagePtr, x: PagePtr, i: nat)
    requires PagesOk(f) && KidsOk(f) && r in f.revs && CanHoist(f, r, p) && RootOk(f, r)
    requires x in f.pages && x != p && f.meta[x].owner in f.known && Kid(f.pages[x], i) != 0
    ensures KidOk(Hoisted(f, r, p), x, i)
  {
    assert KidOk(f, x, i);
  }

  lemma HoistLinks(f: Forest, r: PagePtr, p: PagePtr)
    requires Inv(f) && r in f.revs && CanHoist(f, r, p) && PagesOk(Hoisted(f, r, p))
    ensures LinksOk(Hoisted(f, r, p))
  {
    var f' := Hoisted(f, r, p);
    assert RootOk(f, r);
    forall x | x in f'.pages && f'.meta[x].owner in f'.known && x !in f'.loose
      ensures LinkOk(f', x)
    {
      if x == p {
      } else if x == f.revs[r].root.page && f.meta[x].owner == r {
        assert LinkOk(f, x);
        assert Kid(f'.pages[p], 0) == x;
      } else {
        assert LinkOk(f, x);
      }
    }
  }

  lemma HoistRoots(f: Forest, r: PagePtr, p: PagePtr)
    requires Inv(f) && r in f.revs && CanHoist(f, r, p)
    ensures RootsOk(Hoisted(f, r, p))
  {
    var f' := Hoisted(f, r, p);
    assert RootOk(f, r);
    forall s | s in f'.known
      ensures RootOk(f', s)
    {
      assert RootOk(f, s);
    }
  }

  lemma HoistKeeps(f: Forest, r: PagePtr, p: PagePtr)
    requires Inv(f) && r in f.revs && CanHoist(f, r, p)
    ensures Inv(Hoisted(f, r, p))
  {
    hide PagesOk, KidsOk, LinksOk, RootsOk, CountsOk, Covered;
    HoistKids(f, r, p);
    HoistLinks(f, r, p);
    HoistRoots(f, r, p);
    HoistOthers(f, r, p);
  }

  lemma HoistOthers(f: Forest, r: PagePtr, p: PagePtr)
    requires Inv(f) && r in f.revs && CanHoist(f, r, p)
    ensures AncOk(Hoisted(f, r, p)) && CountsOk(Hoisted(f, r, p))
          && Hoisted(f, r, p).loose <= Hoisted(f, r, p).pages.Keys
  {
    hide KidsOk, LinksOk, RootsOk, CountsOk, Covered;
    SameOwners(f, Hoisted(f, r, p));
  }

  lemma HoistLookups(f: Forest, r: PagePtr, p: PagePtr)
    requires Inv(f) && r in f.revs && CanHoist(f, r, p)
    ensures SameLookups(f, Hoisted(f, r, p))
  {
    hide Lookup, AncOk, KidsOk, RootsOk, LinksOk, CountsOk;
    forall s, offset: nat | s in f.known && s in f.revs
      ensures Lookup(Hoisted(f, r, p), s, offset) == Lookup(f, s, offset)
    {
      HoistLookup(f, r, p, s, offset);
    }
  }

  lemma HoistLookup(f: Forest, r: PagePtr, p: PagePtr, s: PagePtr, offset: nat)
    requires Inv(f) && r in f.revs && CanHoist(f, r, p) && s in f.known && s in f.revs
    ensures Lookup(Hoisted(f, r, p), s, offset) == Lookup(f, s, offset)
  {
    hide Covered, LeafAt, Raised, CountsOk, LinksOk;
    var f', v := Hoisted(f, r, p), f.revs[s];
    assert RootOk(f, s);
    LeafFrameExcept(f, p, f'.pages[p], v.root.page, v.level, offset);
    if s == r {
      HoistedRoot(f, r, p, offset);
    }
  }

  /** Rewriting a loose page is invisible: nothing that is linked reaches it. */
  lemma {:induction false} LeafFrameExcept(f: Forest, p: PagePtr, pg: Page, x: PagePtr, level: nat, offset: nat)
    requires PagesOk(f) && KidsOk(f) && AncOk(f) && p in f.loose && p in f.pages && !f.pages[p].SegmentPage?
          && !pg.SegmentPage?
    requires x == 0 || (x in f.pages && x != p && f.meta[x].owner in f.known && f.meta[x].level == level)
    ensures LeafAt(f.pages[p := pg], x, level, offset) == LeafAt(f.pages, x, level, offset)
    decreases level
  {
    if x != 0 && level >= 2 {
      var s := SlotOf(level, offset);
      var c := Kid(f.pages[x], s);
      if c != 0 {
        assert KidOk(f, x, s);
      }
      LeafFrameExcept(f, p, pg, c, level - 1, RestOf(level, offset));
    }
  }

  lemma HoistedRoot(f: Forest, r: PagePtr, p: PagePtr, offset: nat)
    requires Inv(f) && r in f.revs && CanHoist(f, r, p)
    requires LeafAt(Hoisted(f, r, p).pages, f.revs[r].root.page, f.revs[r].level, offset)
          == LeafAt(f.pages, f.revs[r].root.page, f.revs[r].level, offset)
    ensures Lookup(Hoisted(f, r, p), r, offset) == Lookup(f, r, offset)
  {
    hide Inv, Covered, LeafAt, Raised;
    var v := f.revs[r];
    InvRoot(f, r);
    var pages' := Hoisted(f, r, p).pages;
    CoveredMonotonic(v.level, v.level + 1);
    if offset < Covered(v.level + 1) {
      RaisedLeaf(pages', p, v.root, v.level + 1, offset);
    }
  }

  lemma InvRoot(f: Forest, r: PagePtr)
    requires Inv(f) && r in f.known && r in f.revs
    ensures PagesOk(f) && RootOk(f, r) && 0 !in f.pages
  {
  }

  /** Below a raised root, the first slot is the old tree and the rest is empty. */
  lemma RaisedLeaf(pages: map<PagePtr, Page>, p: PagePtr, root: Ref, level: nat, offset: nat)
    requires p in pages && pages[p] == Raised(root) && 0 !in pages && level >= 2
    requires offset < Covered(level)
    ensures LeafAt(pages, p, level, offset)
         == if offset < Covered(level - 1) then LeafAt(pages, root.page, level - 1, offset) else NULL_LEAF
  {
    Split(level, offset);
    if offset >= Covered(level - 1) {
      assert SlotOf(level, offset) >= 1;
    }
    assert Kid(pages[p], SlotOf(level, offset)) == if offset < Covered(level - 1) then root.page else 0;
  }

  // ----- revisions -----

  /** A revision page that inherits the tree of `source`, all of it stolen. */
  ghost function Inherited(f: Forest, r: PagePtr, source: PagePtr, brid: BranchRevId, last: PagePtr): Forest
    requires source in f.revs && source in f.anc
  {
    var v := f.revs[source];
    f.(revs := f.revs[r := Revision(brid, Ref(v.root.page, true), v.level, true, last, Counts(0, 0, 0))],
       anc := f.anc[r := f.anc[source] + {source}],
       known := f.known + {r})
  }

  ghost predicate NewBrid(f: Forest, source: PagePtr, brid: BranchRevId)
    requires AncOk(f) && source in f.known
  {
    f.revs[source].brid != brid && forall t :: t in f.anc[source] ==> f.revs[t].brid != brid
  }

  /** No page is owned by r, and no revision inherits from it. */
  ghost predicate Unused(f: Forest, r: PagePtr)
    requires PagesOk(f)
  {
    && Fresh(f, r) && r !in f.known
    && forall p :: p in f.pages ==> f.meta[p].owner != r
  }

  lemma NewKids(f: Forest, r: PagePtr, f': Forest)
    requires PagesOk(f) && KidsOk(f) && AncOk(f) && Unused(f, r)
    requires f'.pages == f.pages && f'.meta == f.meta && f'.loose == f.loose && f'.known == f.known + {r}
    requires f'.revs.Keys == f.revs.Keys + {r}
          && forall s :: s in f.known ==>
          s in f'.revs && f'.revs[s] == f.revs[s] && s in f'.anc && f'.anc[s] == f.anc[s]
    ensures PagesOk(f') && KidsOk(f')
  {
    forall x, i: nat | x in f'.pages && f'.meta[x].owner in f'.known && Kid(f'.pages[x], i) != 0
      ensures KidOk(f', x, i)
    {
      assert KidOk(f, x, i);
    }
  }

  /** The other revisions and all links survive the arrival of a revision that owns nothing linked. */
  lemma NewLinks(f: Forest, r: PagePtr, f': Forest)
    requires PagesOk(f) && LinksOk(f) && AncOk(f) && Unused(f, r) && PagesOk(f')
    requires forall x :: x in f'.pages && f'.meta[x].owner != r ==>
               x in f.pages && f'.pages[x] == f.pages[x] && f'.meta[x] == f.meta[x]
    requires forall x :: x in f.pages ==> x in f'.pages && f'.pages[x] == f.pages[x] && f'.meta[x] == f.meta[x]
    requires f'.loose == f.loose && f'.known == f.known + {r}
    requires forall s :: s in f.known ==> s in f'.revs && f'.revs[s] == f.revs[s]
    requires forall x :: x in f'.pages && f'.meta[x].owner == r ==> LinkOk(f', x)
    ensures LinksOk(f')
  {
    forall x | x in f'.pages && f'.meta[x].owner in f'.known && x !in f'.loose
      ensures LinkOk(f', x)
    {
      if f'.meta[x].owner != r {
        assert LinkOk(f, x);
      }
    }
  }

  lemma NewCounts(f: Forest, r: PagePtr, f': Forest)
    requires PagesOk(f) && AncOk(f) && CountsOk(f) && Unused(f, r)
    requires f'.known == f.known + {r} && f'.known <= f'.revs.Keys
    requires forall s :: s in f.known ==> f'.revs[s] == f.revs[s]
    requires forall s, k: nat :: s in f.known && k <= 2 ==> OwnedAt(f', s, k) == OwnedAt(f, s, k)
    requires CountOk(f', r)
    ensures CountsOk(f')
  {
    forall s | s in f'.known
      ensures CountOk(f', s)
    {
      if s != r {
        assert CountOk(f, s);
        assert OwnedAt(f', s, 0) == OwnedAt(f, s, 0) && OwnedAt(f', s, 1) == OwnedAt(f, s, 1)
            && OwnedAt(f', s, 2) == OwnedAt(f, s, 2);
      }
    }
  }

  lemma InheritRoots(f: Forest, r: PagePtr, source: PagePtr, brid: BranchRevId, last: PagePtr)
    requires PagesOk(f) && AncOk(f) && RootsOk(f) && Unused(f, r) && source in f.known
    ensures RootsOk(Inherited(f, r, source, brid, last))
  {
    var f' := Inherited(f, r, source, brid, last);
    forall s | s in f'.known
      ensures RootOk(f', s)
    {
      assert RootOk(f, if s == r then source else s);
    }
  }

  lemma InheritAnc(f: Forest, r: PagePtr, source: PagePtr, brid: BranchRevId, last: PagePtr)
    requires PagesOk(f) && AncOk(f) && Unused(f, r) && source in f.known && !f.revs[source].writable
          && NewBrid(f, source, brid)
    ensures AncOk(Inherited(f, r, source, brid, last))
  {
    var f' := Inherited(f, r, source, brid, last);
    forall s, t | s in f'.known && t in f'.anc[s]
      ensures f'.anc[t] <= f'.anc[s] && f'.revs[t].brid != f'.revs[s].brid && !f'.revs[t].writable
    {
      if s == r && t != source {
        assert t in f.anc[source];
      }
    }
  }

  /** The new revision reads exactly what its source reads, and nobody else notices. */
  lemma InheritKeeps(f: Forest, r: PagePtr, source: PagePtr, brid: BranchRevId, last: PagePtr)
    requires Inv(f) && Unused(f, r) && source in f.known && !f.revs[source].writable && NewBrid(f, source, brid)
    ensures Inv(Inherited(f, r, source, brid, last))
    ensures SameLookups(f, Inherited(f, r, source, brid, last))
    ensures forall offset: nat :: Lookup(Inherited(f, r, source, brid, last), r, offset) == Lookup(f, source, offset)
  {
    hide PagesOk, KidsOk, LinksOk, RootsOk, CountsOk, Covered;
    InheritKids(f, r, source, brid, last);
    InheritRoots(f, r, source, brid, last);
    InheritAnc(f, r, source, brid, last);
    InheritCounts(f, r, source, brid, last);
  }

  lemma InheritKids(f: Forest, r: PagePtr, source: PagePtr, brid: BranchRevId, last: PagePtr)
    requires Inv(f) && Unused(f, r) && source in f.known
    ensures var f' := Inherited(f, r, source, brid, last); PagesOk(f') && KidsOk(f') && LinksOk(f')
  {
    hide KidsOk, LinksOk, RootsOk, CountsOk, Covered;
    NewKids(f, r, Inherited(f, r, source, brid, last));
    NewLinks(f, r, Inherited(f, r, source, brid, last));
  }

  lemma InheritCounts(f: Forest, r: PagePtr, source: PagePtr, brid: BranchRevId, last: PagePtr)
    requires Inv(f) && Unused(f, r) && source in f.known
    ensures CountsOk(Inherited(f, r, source, brid, last))
  {
    hide KidsOk, LinksOk, RootsOk, CountsOk, Covered;
    var f' := Inherited(f, r, source, brid, last);
    assert OwnedAt(f', r, 0) == {} && OwnedAt(f', r, 1) == {} && OwnedAt(f', r, 2) == {};
    NewCounts(f, r, f');
  }

  /** A revision page with a blank PageInfoPage p as its whole tree. */
  ghost function Headed(f: Forest, r: PagePtr, brid: BranchRevId, last: PagePtr, p: PagePtr): Forest {
    f.(pages := f.pages[p := ZeroPage(1)],
       meta := f.meta[p := Meta(r, 1, 0, RootSlot)],
       revs := f.revs[r := Revision(brid, Ref(p, false), 1, true, last, Counts(0, 1, 0))],
       anc := f.anc[r := {}],
       known := f.known + {r})
  }

  lemma HeadKids(f: Forest, r: PagePtr, brid: BranchRevId, last: PagePtr, p: PagePtr)
    requires PagesOk(f) && KidsOk(f) && AncOk(f) && Unused(f, r) && Fresh(f, p) && p != r
    ensures PagesOk(Headed(f, r, brid, last, p)) && KidsOk(Headed(f, r, brid, last, p))
  {
    var f' := Headed(f, r, brid, last, p);
    forall x, i: nat | x in f'.pages && f'.meta[x].owner in f'.known && Kid(f'.pages[x], i) != 0
      ensures KidOk(f', x, i)
    {
      assert x != p;
      assert KidOk(f, x, i);
    }
  }

  lemma HeadCounts(f: Forest, r: PagePtr, brid: BranchRevId, last: PagePtr, p: PagePtr)
    requires PagesOk(f) && AncOk(f) && CountsOk(f) && Unused(f, r) && Fresh(f, p) && p != r
    ensures CountsOk(Headed(f, r, brid, last, p))
  {
    var f' := Headed(f, r, brid, last, p);
    assert OwnedAt(f', r, 0) == {} && OwnedAt(f', r, 1) == {p} && OwnedAt(f', r, 2) == {};
    forall s, k: nat | s in f.known && k <= 2
      ensures OwnedAt(f', s, k) == OwnedAt(f, s, k)
    {
    }
    NewCounts(f, r, f');
  }

  lemma HeadRoots(f: Forest, r: PagePtr, brid: BranchRevId, last: PagePtr, p: PagePtr)
    requires Inv(f) && Unused(f, r) && Fresh(f, p) && p != r
    ensures RootsOk(Headed(f, r, brid, last, p)) && AncOk(Headed(f, r, brid, last, p))
  {
    var f' := Headed(f, r, brid, last, p);
    forall s | s in f'.known
      ensures RootOk(f', s)
    {
      if s != r {
        assert RootOk(f, s);
      }
    }
  }

  lemma HeadLookups(f: Forest, r: PagePtr, brid: BranchRevId, last: PagePtr, p: PagePtr)
    requires Inv(f) && Unused(f, r) && Fresh(f, p) && p != r
    ensures SameLookups(f, Headed(f, r, brid, last, p))
    ensures forall offset: nat :: Lookup(Headed(f, r, brid, last, p), r, offset) == NULL_LEAF
  {
    var f' := Headed(f, r, brid, last, p);
    forall s, offset: nat | s in f.known && s in f.revs
      ensures Lookup(f', s, offset) == Lookup(f, s, offset)
    {
      assert RootOk(f, s);
      LeafFrame(f, f.known, f'.pages, f.revs[s].root.page, f.revs[s].level, offset);
    }
  }

  lemma HeadLinks(f: Forest, r: PagePtr, brid: BranchRevId, last: PagePtr, p: PagePtr)
    requires PagesOk(f) && LinksOk(f) && AncOk(f) && Unused(f, r) && Fresh(f, p) && p != r
    requires PagesOk(Headed(f, r, brid, last, p))
    ensures LinksOk(Headed(f, r, brid, last, p))
  {
    hide LinksOk, Shape, Covered;
    NewLinks(f, r, Headed(f, r, brid, last, p));
  }

  /** A head revision starts empty. */
  lemma HeadKeeps(f: Forest, r: PagePtr, brid: BranchRevId, last: PagePtr, p: PagePtr)
    requires Inv(f) && Unused(f, r) && Fresh(f, p) && p != r
    ensures Inv(Headed(f, r, brid, last, p))
  {
    HeadKids(f, r, brid, last, p);
    HeadCounts(f, r, brid, last, p);
    HeadRoots(f, r, brid, last, p);
    HeadLinks(f, r, brid, last, p);
  }

  // ----- forgetting and freeing revisions -----

  /** Restricting the maintained revisions to a set closed under inheritance. */
  lemma ForgetKeeps(f: Forest, known: set<PagePtr>)
    requires Inv(f) && known <= f.known && forall s :: s in known ==> f.anc[s] <= known
    ensures Inv(f.(known := known))
    ensures SameLookups(f, f.(known := known))
  {
    var f' := f.(known := known);
    forall x, i: nat | x in f'.pages && f'.meta[x].owner in f'.known && Kid(f'.pages[x], i) != 0
      ensures KidOk(f', x, i)
    {
      assert KidOk(f, x, i);
    }
    forall s | s in f'.known
      ensures RootOk(f', s)
    {
      assert RootOk(f, s);
    }
    forall x | x in f'.pages && f'.meta[x].owner in f'.known && x !in f'.loose
      ensures LinkOk(f', x)
    {
      assert LinkOk(f, x);
    }
    SameOwners(f, f');
  }

  /** All pages that revision r allocated. */
  ghost function Owned(f: Forest, r: PagePtr): set<PagePtr> {
    set p | p in f.pages && p in f.meta && f.meta[p].owner == r
  }

  ghost function Freed(f: Forest, r: PagePtr): Forest {
    f.(pages := f.pages - Owned(f, r), meta := f.meta - Owned(f, r), revs := f.revs - {r},
        loose := f.loose - Owned(f, r))
  }

  /** Freeing the pages of a forgotten revision touches nothing that a known revision can reach. */
  lemma FreeKeeps(f: Forest, r: PagePtr)
    requires Inv(f) && r !in f.known
    ensures Inv(Freed(f, r))
    ensures SameLookups(f, Freed(f, r))
  {
    FreeKids(f, r);
    FreeLinks(f, r);
    FreeCounts(f, r);
    FreeLookups(f, r);
  }

  lemma FreeKids(f: Forest, r: PagePtr)
    requires PagesOk(f) && KidsOk(f) && AncOk(f) && r !in f.known
    ensures PagesOk(Freed(f, r)) && KidsOk(Freed(f, r)) && AncOk(Freed(f, r))
  {
    var f' := Freed(f, r);
    forall x, i: nat | x in f'.pages && f'.meta[x].owner in f'.known && Kid(f'.pages[x], i) != 0
      ensures KidOk(f', x, i)
    {
      assert KidOk(f, x, i);
    }
  }

  lemma FreeLinks(f: Forest, r: PagePtr)
    requires PagesOk(f) && LinksOk(f) && AncOk(f) && RootsOk(f) && r !in f.known && PagesOk(Freed(f, r))
    ensures LinksOk(Freed(f, r)) && RootsOk(Freed(f, r))
  {
    var f' := Freed(f, r);
    forall s | s in f'.known
      ensures RootOk(f', s)
    {
      assert RootOk(f, s);
    }
    forall x | x in f'.pages && f'.meta[x].owner in f'.known && x !in f'.loose
      ensures LinkOk(f', x)
    {
      assert LinkOk(f, x);
    }
  }

  lemma FreeCounts(f: Forest, r: PagePtr)
    requires f.known <= f.revs.Keys && CountsOk(f) && r !in f.known
    ensures CountsOk(Freed(f, r))
  {
    var f' := Freed(f, r);
    forall s | s in f'.known
      ensures CountOk(f', s)
    {
      assert CountOk(f, s);
      assert forall k :: 0 <= k <= 2 ==> OwnedAt(f', s, k) == OwnedAt(f, s, k);
    }
  }

  lemma FreeLookups(f: Forest, r: PagePtr)
    requires Inv(f) && r !in f.known
    ensures SameLookups(f, Freed(f, r))
  {
    var f' := Freed(f, r);
    forall s, offset: nat | s in f.known && s in f.revs && s in f'.revs
      ensures Lookup(f', s, offset) == Lookup(f, s, offset)
    {
      assert RootOk(f, s);
      LeafFrame(f, f.known, f'.pages, f.revs[s].root.page, f.revs[s].level, offset);
    }
  }
}
