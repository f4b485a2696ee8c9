/** The elementary updates that the store makes to the page forest, each with what
    it keeps and what it changes in the mappings that revisions read. */
module TreeSteps {
  import opened Radix
  import opened PageTree

  ghost predicate Fresh(f: Forest, p: PagePtr) {
    p != 0 && p !in f.pages && p !in f.revs
  }

  function Bump(c: Counts, level: nat): Counts {
    if level == 0 then c.(segments := c.segments + 1)
    else if level == 1 then c.(infos := c.infos + 1)
    else c.(indirections := c.indirections + 1)
  }

  // ----- a new page, not linked yet -----

  ghost function Alloced(f: Forest, r: PagePtr, p: PagePtr, pg: Page, level: nat): Forest
    requires r in f.revs
  {
    f.(pages := f.pages[p := pg],
       meta := f.meta[p := Meta(r, level, 0, RootSlot)],
       revs := f.revs[r := f.revs[r].(owned := Bump(f.revs[r].owned, level))],
       loose := f.loose + {p})
  }

  /** All pages below `pg` are borrowed from ancestors of r. */
  ghost predicate Borrows(f: Forest, pg: Page, level: nat, r: PagePtr) {
    forall i: nat :: Kid(pg, i) != 0 ==> KidFits(f, pg, i, level, r) && f.meta[Kid(pg, i)].owner != r
  }

  lemma AllocOwner(f: Forest, r: PagePtr, p: PagePtr, pg: Page, level: nat, s: PagePtr, k: nat, x: PagePtr)
    requires f.meta.Keys == f.pages.Keys && r in f.revs && p !in f.pages
    ensures x in OwnedAt(Alloced(f, r, p, pg, level), s, k) <==>
          x in OwnedAt(f, s, k) || (x == p && s == r && k == Kind(level))
  {
    assert x in Alloced(f, r, p, pg, level).pages <==> x in f.pages || x == p;
  }

  lemma AllocOwned(f: Forest, r: PagePtr, p: PagePtr, pg: Page, level: nat, s: PagePtr, k: nat)
    requires f.meta.Keys == f.pages.Keys && r in f.revs && p !in f.pages
    ensures |OwnedAt(Alloced(f, r, p, pg, level), s, k)|
         == |OwnedAt(f, s, k)| + if s == r && k == Kind(level) then 1 else 0
  {
    hide Alloced, Kind;
    var f' := Alloced(f, r, p, pg, level);
    var was, now := OwnedAt(f, s, k), OwnedAt(f', s, k);
    assert p !in was;
    forall x
      ensures x in now <==> x in was || (x == p && s == r && k == Kind(level))
    {
      AllocOwner(f, r, p, pg, level, s, k, x);
    }
    assert now == was + if s == r && k == Kind(level) then {p} else {};
  }

  lemma AllocCounts(f: Forest, r: PagePtr, p: PagePtr, pg: Page, level: nat)
    requires f.meta.Keys == f.pages.Keys && f.known <= f.revs.Keys && CountsOk(f) && r in f.known && p !in f.pages
    ensures CountsOk(Alloced(f, r, p, pg, level))
  {
    forall s | s in f.known
      ensures CountOk(Alloced(f, r, p, pg, level), s)
    {
      assert CountOk(f, s);
      AllocOwned(f, r, p, pg, level, s, 0);
      AllocOwned(f, r, p, pg, level, s, 1);
      AllocOwned(f, r, p, pg, level, s, 2);
    }
  }

  lemma AllocKids(f: Forest, r: PagePtr, p: PagePtr, pg: Page, level: nat)
    requires PagesOk(f) && KidsOk(f) && r in f.known && r in f.revs && Fresh(f, p) && Shape(pg, level)
          && Borrows(f, pg, level, r)
    ensures PagesOk(Alloced(f, r, p, pg, level)) && KidsOk(Alloced(f, r, p, pg, level))
  {
    var f' := Alloced(f, r, p, pg, level);
    forall x, i: nat | x in f'.pages && f'.meta[x].owner in f'.known && Kid(f'.pages[x], i) != 0
      ensures KidOk(f', x, i)
    {
      if x != p {
        assert KidOk(f, x, i);
      } else {
        assert KidFits(f, pg, i, level, r);
      }
    }
  }

  lemma AllocRoots(f: Forest, r: PagePtr, p: PagePtr, pg: Page, level: nat)
    requires f.meta.Keys == f.pages.Keys && f.known <= f.revs.Keys && RootsOk(f) && r in f.known && Fresh(f, p)
    ensures RootsOk(Alloced(f, r, p, pg, level))
  {
    forall s | s in f.known
      ensures RootOk(Alloced(f, r, p, pg, level), s)
    {
      assert RootOk(f, s);
    }
  }

  lemma AllocLinks(f: Forest, r: PagePtr, p: PagePtr, pg: Page, level: nat)
    requires PagesOk(f) && LinksOk(f) && r in f.known && r in f.revs && Fresh(f, p) && Shape(pg, level)
    ensures PagesOk(Alloced(f, r, p, pg, level)) && LinksOk(Alloced(f, r, p, pg, level))
  {
    var f' := Alloced(f, r, p, pg, level);
    forall x | x in f'.pages && f'.meta[x].owner in f'.known && x !in f'.loose
      ensures LinkOk(f', x)
    {
      assert LinkOk(f, x);
    }
  }

  lemma AllocKeeps(f: Forest, r: PagePtr, p: PagePtr, pg: Page, level: nat)
    requires Inv(f) && r in f.known && Fresh(f, p) && Shape(pg, level) && Borrows(f, pg, level, r)
    ensures Inv(Alloced(f, r, p, pg, level))
  {
    AllocCounts(f, r, p, pg, level);
    AllocKids(f, r, p, pg, level);
    AllocRoots(f, r, p, pg, level);
    AllocLinks(f, r, p, pg, level);
  }

  // ----- hanging a loose page under an owned page -----

  ghost function SetKid(pg: Page, i: nat, p: PagePtr, brid: BranchRevId, tag: nat): Page {
    match pg
    case SegmentPage(_) => pg
    case InfoPage(infos) => if i < |infos| then InfoPage(infos[i := PageInfo(p, brid, tag)]) else pg
    case IndirectionPage(refs) => if i < |refs| then IndirectionPage(refs[i := Ref(p, false)]) else pg
  }

  ghost function Hung(f: Forest, q: PagePtr, i: nat, p: PagePtr, tag: nat): Forest
    requires q in f.pages && q in f.meta && p in f.meta && f.meta[q].owner in f.revs
  {
    f.(pages := f.pages[q := SetKid(f.pages[q], i, p, f.revs[f.meta[q].owner].brid, tag)],
       meta := f.meta[p :=
             Meta(f.meta[p].owner, f.meta[p].level, f.meta[q].base + i * Covered(f.meta[p].level), ChildSlot(q, i))],
       loose := f.loose - {p})
  }

  /** Slot i of q can take p: q is a linked page of p's revision, and the slot is empty or borrowed. */
  ghost predicate CanHang(f: Forest, q: PagePtr, i: nat, p: PagePtr)
    requires PagesOk(f)
  {
    && q in f.pages && q !in f.loose && p in f.pages && p in f.loose && p != q
    && f.meta[q].owner in f.known && f.meta[p].owner == f.meta[q].owner
    && f.meta[q].level >= 1 && f.meta[p].level == f.meta[q].level - 1
    && i < Fanout(f.meta[q].level)
    && (Kid(f.pages[q], i) == 0
          || (Kid(f.pages[q], i) in f.meta && f.meta[Kid(f.pages[q], i)].owner != f.meta[q].owner))
  }

  lemma SetKidKids(pg: Page, i: nat, level: nat, p: PagePtr, brid: BranchRevId, tag: nat)
    requires Shape(pg, level) && i < Fanout(level)
    ensures Shape(SetKid(pg, i, p, brid, tag), level)
    ensures forall j: nat :: Kid(SetKid(pg, i, p, brid, tag), j) == if j == i then p else Kid(pg, j)
  {
  }

  /** Changing entries of q, or the meta of a loose page, leaves every set of owned pages alone. */
  lemma SameOwners(f: Forest, f': Forest)
    requires f.meta.Keys == f.pages.Keys && f'.pages.Keys == f.pages.Keys && f'.meta.Keys == f.pages.Keys
    requires forall x :: x in f.pages ==> f'.meta[x].owner == f.meta[x].owner && f'.meta[x].level == f.meta[x].level
    requires f'.known <= f.known <= f.revs.Keys && f'.known <= f'.revs.Keys
    requires forall r :: r in f'.known ==> f'.revs[r].owned == f.revs[r].owned
    requires CountsOk(f)
    ensures CountsOk(f')
  {
    forall r | r in f'.known
      ensures CountOk(f', r)
    {
      assert CountOk(f, r);
      assert OwnedAt(f', r, 0) == OwnedAt(f, r, 0);
      assert OwnedAt(f', r, 1) == OwnedAt(f, r, 1);
      assert OwnedAt(f', r, 2) == OwnedAt(f, r, 2);
    }
  }

  lemma HangKids(f: Forest, q: PagePtr, i: nat, p: PagePtr, tag: nat)
    requires PagesOk(f) && AncOk(f) && KidsOk(f) && CanHang(f, q, i, p)
    ensures f.meta[q].owner in f.revs
    ensures PagesOk(Hung(f, q, i, p, tag)) && KidsOk(Hung(f, q, i, p, tag))
  {
    var r := f.meta[q].owner;
    var f' := Hung(f, q, i, p, tag);
    SetKidKids(f.pages[q], i, f.meta[q].level, p, f.revs[r].brid, tag);
    forall x, j: nat | x in f'.pages && f'.meta[x].owner in f'.known && Kid(f'.pages[x], j) != 0
      ensures KidOk(f', x, j)
    {
      if x != q || j != i {
        assert KidOk(f, x, j);
      }
    }
  }

  lemma HangRoots(f: Forest, q: PagePtr, i: nat, p: PagePtr, tag: nat)
    requires PagesOk(f) && AncOk(f) && RootsOk(f) && CanHang(f, q, i, p)
    ensures f.meta[q].owner in f.revs
    ensures RootsOk(Hung(f, q, i, p, tag))
  {
    forall s | s in f.known
      ensures RootOk(Hung(f, q, i, p, tag), s)
    {
      assert RootOk(f, s);
    }
  }

  lemma HangLinks(f: Forest, q: PagePtr, i: nat, p: PagePtr, tag: nat)
    requires PagesOk(f) && AncOk(f) && LinksOk(f) && CanHang(f, q, i, p)
    ensures f.meta[q].owner in f.revs
    ensures PagesOk(Hung(f, q, i, p, tag)) && LinksOk(Hung(f, q, i, p, tag))
  {
    var f' := Hung(f, q, i, p, tag);
    SetKidKids(f.pages[q], i, f.meta[q].level, p, f.revs[f.meta[q].owner].brid, tag);
    assert LinkOk(f, q);
    forall x | x in f'.pages && f'.meta[x].owner in f'.known && x !in f'.loose
      ensures LinkOk(f', x)
    {
      if x != p {
        assert LinkOk(f, x);
      }
    }
  }

  /** Hanging a loose page keeps the forest well-formed. */
  lemma HangKeeps(f: Forest, q: PagePtr, i: nat, p: PagePtr, tag: nat)
    requires Inv(f) && CanHang(f, q, i, p)
    ensures f.meta[q].owner in f.revs
    ensures Inv(Hung(f, q, i, p, tag))
  {
    HangKids(f, q, i, p, tag);
    HangRoots(f, q, i, p, tag);
    HangLinks(f, q, i, p, tag);
    SameOwners(f, Hung(f, q, i, p, tag));
  }

  // ----- what hanging a page changes for readers -----

  function ZeroPage(level: nat): Page
    requires level >= 1
  {
    if level == 1 then InfoPage(seq(INFO_POINTERS, _ => NULL_INFO))
        else IndirectionPage(seq(INDIRECTION_POINTERS, _ => NULL_REF))
  }

  /** Page p holds a copy of page k, or is blank where there was no page. */
  ghost predicate Mirrors(pages: map<PagePtr, Page>, p: PagePtr, k: PagePtr, level: nat)
    requires p in pages && level >= 1
  {
    if k !in pages then pages[p] == ZeroPage(level)
    else match pages[p]
      case SegmentPage(_) => false
      case InfoPage(infos) => level == 1 && pages[k] == pages[p]
      case IndirectionPage(refs) =>
        level >= 2 && pages[k].IndirectionPage? && forall j: nat :: Kid(pages[p], j) == Kid(pages[k], j)
  }

  lemma MirrorLeaf(pages: map<PagePtr, Page>, p: PagePtr, k: PagePtr, level: nat, offset: nat)
    requires 0 !in pages && level >= 1 && p in pages && Mirrors(pages, p, k, level)
    ensures LeafAt(pages, p, level, offset) == LeafAt(pages, k, level, offset)
  {
    if level >= 2 {
      assert Kid(pages[p], SlotOf(level, offset)) == if k in pages then Kid(pages[k], SlotOf(level, offset)) else 0;
    }
  }

  /** Replacing a page by its mirror changes nothing that can be read. */
  lemma {:induction false} HangLeaf(f: Forest, q: PagePtr, i: nat, p: PagePtr, tag: nat, x: PagePtr, level: nat,
      offset: nat)
    requires PagesOk(f) && AncOk(f) && KidsOk(f) && CanHang(f, q, i, p) && f.meta[p].level >= 1
    requires Mirrors(f.pages, p, Kid(f.pages[q], i), f.meta[p].level)
    requires x == 0 || (x in f.pages && f.meta[x].owner in f.known && f.meta[x].level == level)
    ensures f.meta[q].owner in f.revs
    ensures LeafAt(Hung(f, q, i, p, tag).pages, x, level, offset) == LeafAt(f.pages, x, level, offset)
    decreases level
  {
    var pages' := Hung(f, q, i, p, tag).pages;
    SetKidKids(f.pages[q], i, f.meta[q].level, p, f.revs[f.meta[q].owner].brid, tag);
    if x != 0 && level >= 2 {
      var s, rest := SlotOf(level, offset), RestOf(level, offset);
      var c := Kid(f.pages[x], s);
      if x == q && s == i {
        HangLeaf(f, q, i, p, tag, p, level - 1, rest);
        MirrorLeaf(f.pages, p, c, level - 1, rest);
      } else {
        if c != 0 {
          assert KidOk(f, x, s);
        }
        HangLeaf(f, q, i, p, tag, c, level - 1, rest);
      }
    }
  }

  /** Index inside its PageInfoPage of a relative page. */
  ghost function InfoIndex(level: nat, offset: nat): nat
    decreases level
  {
    if level <= 1 then offset else InfoIndex(level - 1, RestOf(level, offset))
  }

  lemma {:induction false} SetInfoLeaf(f: Forest, q: PagePtr, i: nat, info: PageInfo, x: PagePtr, level: nat,
      offset: nat)
    requires PagesOk(f) && AncOk(f) && KidsOk(f) && q in f.pages && f.pages[q].InfoPage? && i < |f.pages[q].infos|
    requires x == 0 || (x in f.pages && f.meta[x].owner in f.known && f.meta[x].level == level)
    ensures LeafAt(f.pages[q := InfoPage(f.pages[q].infos[i := info])], x, level, offset)
         == if InfoPageAt(f.pages, x, level, offset) == q && InfoIndex(level, offset) == i
             then LeafOfInfo(f.pages, info)
            else LeafAt(f.pages, x, level, offset)
    decreases level
  {
    if x != 0 && level >= 2 {
      var c := Kid(f.pages[x], SlotOf(level, offset));
      if c != 0 {
        assert KidOk(f, x, SlotOf(level, offset));
      }
      SetInfoLeaf(f, q, i, info, c, level - 1, RestOf(level, offset));
    }
  }

  lemma {:induction false} SetSegmentLeaf(pages: map<PagePtr, Page>, p: PagePtr, data: seq<bv8>, x: PagePtr, level: nat,
      offset: nat)
    requires p in pages && pages[p].SegmentPage? && 0 !in pages
    ensures var was := LeafAt(pages, x, level, offset);
            LeafAt(pages[p := SegmentPage(data)], x, level, offset) == if was.info.page == p then was.(data := data)
                else was
    decreases level
  {
    if x in pages && level >= 2 {
      SetSegmentLeaf(pages, p, data, Kid(pages[x], SlotOf(level, offset)), level - 1, RestOf(level, offset));
    }
  }

  // ----- addresses of owned pages -----

  /** The pages on a path are owned by the revision or by its ancestors. */
  lemma {:induction false} PathOwner(f: Forest, a: set<PagePtr>, x: PagePtr, level: nat, offset: nat)
    requires PagesOk(f) && KidsOk(f) && Closed(f, a)
    requires x in f.pages && f.meta[x].owner in a && f.meta[x].level == level && level >= 1
    ensures var q := InfoPageAt(f.pages, x, level, offset);
            q == 0 || (q in f.pages && f.meta[q].owner in a && f.meta[q].level == 1)
    decreases level
  {
    if level >= 2 {
      var c := Kid(f.pages[x], SlotOf(level, offset));
      if c != 0 {
        assert KidOk(f, x, SlotOf(level, offset));
        PathOwner(f, a, c, level - 1, RestOf(level, offset));
      }
    }
  }

  lemma AncClosed(f: Forest, r: PagePtr)
    requires AncOk(f) && r in f.known
    ensures Closed(f, f.anc[r]) && r !in f.anc[r]
    ensures Closed(f, f.anc[r] + {r})
  {
  }

  /** An owned PageInfoPage found on the path of an offset covers that offset. */
  lemma {:induction false} PathBase(f: Forest, r: PagePtr, x: PagePtr, level: nat, offset: nat)
    requires PagesOk(f) && KidsOk(f) && AncOk(f) && r in f.known
    requires x in f.pages && f.meta[x].owner == r && f.meta[x].level == level && level >= 1
    requires offset < Covered(level)
    requires var q := InfoPageAt(f.pages, x, level, offset); q in f.pages && f.meta[q].owner == r
    ensures f.meta[x].base + offset == f.meta[InfoPageAt(f.pages, x, level, offset)].base + InfoIndex(level, offset)
    decreases level
  {
    if level >= 2 {
      var s, rest := SlotOf(level, offset), RestOf(level, offset);
      var c := Kid(f.pages[x], s);
      assert KidOk(f, x, s);
      Split(level, offset);
      if f.meta[c].owner == r {
        PathBase(f, r, c, level - 1, rest);
      } else {
        AncClosed(f, r);
        PathOwner(f, f.anc[r], c, level - 1, rest);
        assert false;
      }
    }
  }

  lemma {:induction false} InfoIndexIsRemainder(level: nat, offset: nat)
    requires level >= 1 && offset < Covered(level)
    ensures InfoIndex(level, offset) == offset % INFO_POINTERS
    decreases level
  {
    if level >= 2 {
      var rest := RestOf(level, offset);
      InfoIndexIsRemainder(level - 1, rest);
      Split(level, offset);
      CoveredMultiple(level - 1);
      SkipMultiple(SlotOf(level, offset), Covered(level - 1), rest);
    }
  }

  lemma SkipMultiple(s: nat, a: nat, rest: nat)
    requires a % INFO_POINTERS == 0
    ensures (s * a + rest) % INFO_POINTERS == rest % INFO_POINTERS
  {
    var m := a / INFO_POINTERS;
    assert s * a == (s * m) * INFO_POINTERS;
    DivUnique(s * a + rest, INFO_POINTERS, s * m + rest / INFO_POINTERS, rest % INFO_POINTERS);
  }

  lemma {:induction false} CoveredMultiple(level: nat)
    requires level >= 1
    ensures Covered(level) % INFO_POINTERS == 0
  {
    if level >= 2 {
      CoveredMultiple(level - 1);
      var m := Covered(level - 1) / INFO_POINTERS;
      assert Covered(level) == 512 * (m * INFO_POINTERS) == (512 * m) * INFO_POINTERS;
    }
  }
}
