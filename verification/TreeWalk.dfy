/** What the write path of a revision does to the page forest, slot by slot. */
module TreeWalk {
  import opened Radix
  import opened PageTree
  import opened TreeSteps
  import opened RevisionSteps

  datatype Fetched = Found(page: PagePtr) | NullPage | Overbound | MultiHop

  /** What the write path of revision r may do: allocate, and change pages of r. */
  ghost predicate OwnWrites(f: Forest, f': Forest, r: PagePtr) {
    && f.meta.Keys == f.pages.Keys && f'.meta.Keys == f'.pages.Keys
    && f'.known == f.known && f'.anc == f.anc && f'.revs.Keys == f.revs.Keys
    && (forall s :: s in f.revs && s != r ==> f'.revs[s] == f.revs[s])
    && (r in f.revs ==>
          f'.revs[r].brid == f.revs[r].brid && f'.revs[r].writable == f.revs[r].writable
          && f'.revs[r].last == f.revs[r].last)
    && (forall x :: x in f.pages && x in f.meta ==>
          x in f'.pages && x in f'.meta && f'.meta[x].owner == f.meta[x].owner && f'.meta[x].level == f.meta[x].level)
    && (forall x :: x in f.pages && x in f.meta && f.meta[x].owner != r ==> f'.pages[x] == f.pages[x])
    && (forall x :: x in f'.meta && x !in f.meta ==> f'.meta[x].owner == r)
  }

  /** A fetch leaves every mapping alone, whatever it allocates. */
  ghost predicate Fetches(f: Forest, f': Forest, r: PagePtr) {
    OwnWrites(f, f', r) && SameLookups(f, f')
  }

  /** Pages above a level, and the root, are left alone by a walk below that level. */
  ghost predicate KeepsAbove(f: Forest, f': Forest, r: PagePtr, level: nat) {
    && (forall x :: x in f.pages && x in f.meta && f.meta[x].level > level ==>
          x in f'.pages && f'.pages[x] == f.pages[x])
    && (r in f.revs && r in f'.revs ==> f'.revs[r].root == f.revs[r].root && f'.revs[r].level == f.revs[r].level)
  }

  // ----- copies -----

  function Steal(ref: Ref): Ref {
    if ref.page != 0 then Ref(ref.page, true) else ref
  }

  function StolenCopy(pg: Page): Page {
    match pg
    case SegmentPage(_) => pg
    case InfoPage(_) => pg
    case IndirectionPage(refs) => IndirectionPage(seq(|refs|, i requires 0 <= i < |refs| => Steal(refs[i])))
  }

  lemma StolenKids(pg: Page)
    ensures forall i: nat :: Kid(StolenCopy(pg), i) == Kid(pg, i)
  {
  }

  /** A copy of an ancestor's page borrows everything below it. */
  lemma CopyBorrows(f: Forest, r: PagePtr, k: PagePtr)
    requires Inv(f) && r in f.known && k in f.pages && f.meta[k].owner in f.anc[r]
    ensures Shape(StolenCopy(f.pages[k]), f.meta[k].level)
    ensures Borrows(f, StolenCopy(f.pages[k]), f.meta[k].level, r)
  {
    var pg := StolenCopy(f.pages[k]);
    StolenKids(f.pages[k]);
    forall i: nat | Kid(pg, i) != 0
      ensures KidFits(f, pg, i, f.meta[k].level, r) && f.meta[Kid(pg, i)].owner != r
    {
      assert KidOk(f, k, i);
    }
  }

  lemma BlankBorrows(f: Forest, r: PagePtr, level: nat)
    requires level >= 1
    ensures Shape(ZeroPage(level), level) && Borrows(f, ZeroPage(level), level, r)
  {
    assert forall i: nat :: Kid(ZeroPage(level), i) == 0;
  }

  lemma CopyMirrors(pages: map<PagePtr, Page>, p: PagePtr, k: PagePtr, level: nat)
    requires p in pages && k in pages && level >= 1 && Shape(pages[k], level) && pages[p] == StolenCopy(pages[k])
    ensures Mirrors(pages, p, k, level)
  {
    StolenKids(pages[k]);
  }

  // ----- one slot of an indirection page -----

  ghost predicate OwnsSlot(f: Forest, rev: PagePtr, q: PagePtr, local: nat) {
    && q in f.pages && q in f.meta && f.pages[q].IndirectionPage? && local < |f.pages[q].refs|
    && f.pages[q].refs[local].page != 0 && !f.pages[q].refs[local].stolen
    && f.pages[q].refs[local].page in f.pages && f.pages[q].refs[local].page in f.meta
    && f.meta[f.pages[q].refs[local].page].owner == rev
    && f.meta[f.pages[q].refs[local].page].level == f.meta[q].level - 1
  }

  ghost predicate AtSlot(f: Forest, rev: PagePtr, q: PagePtr, local: nat) {
    && q in f.meta && q in f.pages && rev in f.known && rev in f.revs && f.loose == {}
    && Inv(f) && f.meta[q].owner == rev && f.meta[q].level >= 2 && local < INDIRECTION_POINTERS
  }

  /** `pg` may be hung at the slot in place of what is there now. */
  ghost predicate Fits(f: Forest, rev: PagePtr, q: PagePtr, local: nat, pg: Page)
    requires AtSlot(f, rev, q, local)
  {
    var k, level := Kid(f.pages[q], local), f.meta[q].level - 1;
    && Shape(pg, level) && Borrows(f, pg, level, rev)
    && (k == 0 || (k in f.meta && f.meta[k].owner != rev))
    && (if k !in f.pages then pg == ZeroPage(level) else pg == StolenCopy(f.pages[k]) && Shape(f.pages[k], level))
  }

  lemma BlankFits(f: Forest, rev: PagePtr, q: PagePtr, local: nat)
    requires AtSlot(f, rev, q, local) && Kid(f.pages[q], local) == 0
    ensures Fits(f, rev, q, local, ZeroPage(f.meta[q].level - 1))
  {
    BlankBorrows(f, rev, f.meta[q].level - 1);
  }

  lemma CopyFits(f: Forest, rev: PagePtr, q: PagePtr, local: nat, k: PagePtr)
    requires AtSlot(f, rev, q, local) && f.pages[q].refs[local] == Ref(k, true) && k != 0
    ensures k in f.pages && Shape(f.pages[k], f.meta[q].level - 1)
    ensures Fits(f, rev, q, local, StolenCopy(f.pages[k]))
  {
    assert Kid(f.pages[q], local) == k;
    assert KidOk(f, q, local);
    CopyBorrows(f, rev, k);
  }

  lemma OwnSlotAlready(f: Forest, rev: PagePtr, q: PagePtr, local: nat)
    requires AtSlot(f, rev, q, local) && f.pages[q].refs[local].page != 0 && !f.pages[q].refs[local].stolen
    ensures OwnsSlot(f, rev, q, local)
  {
    assert Kid(f.pages[q], local) == f.pages[q].refs[local].page;
    assert KidOk(f, q, local);
  }

  lemma NothingFetched(f: Forest, r: PagePtr, level: nat)
    requires f.meta.Keys == f.pages.Keys
    ensures Fetches(f, f, r) && KeepsAbove(f, f, r, level)
  {
  }

  /** A walk below `level` on behalf of r, composed of its first step and the rest. */
  lemma WalkCompose(f: Forest, g: Forest, h: Forest, r: PagePtr, q: PagePtr, level: nat)
    requires Fetches(f, g, r) && KeepsAbove(f, g, r, level) && level >= 1
    requires Fetches(g, h, r) && KeepsAbove(g, h, r, level - 1)
    requires q in g.pages && q in g.meta && g.meta[q].level == level
    ensures Fetches(f, h, r) && KeepsAbove(f, h, r, level)
    ensures q in h.pages && h.pages[q] == g.pages[q]
  {
    LookupsCompose(f, g, h);
  }

  /** Owners stay allocated and levels bounded while revision r works below its root. */
  lemma StillBounded(f: Forest, g: Forest, r: PagePtr, level: nat)
    requires Fetches(f, g, r) && KeepsAbove(f, g, r, level) && r in f.revs && Owners(f)
    ensures Owners(g) && g.known == f.known && r in g.revs && g.revs[r].root == f.revs[r].root
          && g.revs[r].level == f.revs[r].level
  {
  }

  ghost predicate Owners(f: Forest) {
    && (forall p :: p in f.pages ==> p in f.meta && f.meta[p].owner in f.revs)
    && (forall r :: r in f.known && r in f.revs ==> f.revs[r].level <= MAX_LEVEL)
  }

  lemma ReadChild(f: Forest, q: PagePtr, local: nat)
    requires Inv(f) && q in f.pages && f.meta[q].owner in f.known && f.pages[q].IndirectionPage?
          && local < |f.pages[q].refs|
    requires f.pages[q].refs[local].page != 0
    ensures var c := f.pages[q].refs[local].page;
            c in f.pages && c in f.meta && f.meta[c].owner in f.known && f.meta[q].level >= 1
                && f.meta[c].level == f.meta[q].level - 1
  {
    assert Kid(f.pages[q], local) == f.pages[q].refs[local].page;
    assert KidOk(f, q, local);
  }

  lemma InfoPageShape(f: Forest, x: PagePtr)
    requires PagesOk(f) && x in f.pages && f.meta[x].level == 1
    ensures f.pages[x].InfoPage?
  {
    assert Shape(f.pages[x], 1);
  }

  /** The first step of a walk: the page below the slot of the offset. */
  lemma PathStep(pages: map<PagePtr, Page>, q: PagePtr, level: nat, offset: nat)
    requires q in pages && level >= 2 && pages[q].IndirectionPage? && SlotOf(level, offset) < |pages[q].refs|
    ensures InfoPageAt(pages, q, level, offset)
         == InfoPageAt(pages, pages[q].refs[SlotOf(level, offset)].page, level - 1, RestOf(level, offset))
  {
  }

  lemma NoPage(pages: map<PagePtr, Page>, level: nat, offset: nat)
    requires 0 !in pages
    ensures InfoPageAt(pages, 0, level, offset) == 0
  {
  }

  lemma BottomStep(pages: map<PagePtr, Page>, q: PagePtr, offset: nat)
    requires 0 !in pages
    ensures InfoPageAt(pages, q, 1, offset) == if q in pages then q else 0
  {
  }

  lemma FetchesCompose(f: Forest, g: Forest, h: Forest, r: PagePtr)
    requires Fetches(f, g, r) && Fetches(g, h, r)
    ensures Fetches(f, h, r)
  {
    LookupsCompose(f, g, h);
  }

  lemma GrownBounded(f: Forest, g: Forest, r: PagePtr)
    requires Fetches(f, g, r) && r in f.revs && Owners(f) && g.revs[r].level <= MAX_LEVEL
    ensures Owners(g)
  {
  }

  /** An offset beyond the covered area means that there is room for another level. */
  lemma NotTop(level: nat, offset: nat)
    requires Covered(level) <= offset < RELATIVE_PAGES
    ensures level < MAX_LEVEL
  {
    if level >= MAX_LEVEL {
      CoveredMonotonic(MAX_LEVEL, level);
      CoveredTable();
    }
  }

  ghost function Replaced(f: Forest, rev: PagePtr, q: PagePtr, local: nat, p: PagePtr, pg: Page): Forest
    requires AtSlot(f, rev, q, local) && Fresh(f, p)
  {
    Hung(Alloced(f, rev, p, pg, f.meta[q].level - 1), q, local, p, 0)
  }

  lemma InvPages(f: Forest)
    requires Inv(f)
    ensures PagesOk(f)
  {
  }

  lemma ReplaceAlloc(f: Forest, rev: PagePtr, q: PagePtr, local: nat, p: PagePtr, pg: Page)
    requires AtSlot(f, rev, q, local) && Fits(f, rev, q, local, pg) && Fresh(f, p)
    ensures Inv(Alloced(f, rev, p, pg, f.meta[q].level - 1))
    ensures SameLookups(f, Alloced(f, rev, p, pg, f.meta[q].level - 1))
  {
    hide Inv, SameLookups, Borrows;
    var level := f.meta[q].level - 1;
    AllocKeeps(f, rev, p, pg, level);
    AllocLookups(f, rev, p, pg, level);
  }

  lemma ReplaceCanHang(f: Forest, rev: PagePtr, q: PagePtr, local: nat, p: PagePtr, pg: Page)
    requires AtSlot(f, rev, q, local) && Fits(f, rev, q, local, pg) && Fresh(f, p)
    requires PagesOk(Alloced(f, rev, p, pg, f.meta[q].level - 1))
    ensures CanHang(Alloced(f, rev, p, pg, f.meta[q].level - 1), q, local, p)
    ensures var mid := Alloced(f, rev, p, pg, f.meta[q].level - 1);
            Mirrors(mid.pages, p, Kid(mid.pages[q], local), f.meta[q].level - 1)
  {
    hide Inv, Borrows, KidsOk, LinksOk, RootsOk, CountsOk, AncOk;
    InvPages(f);
    var level := f.meta[q].level - 1;
    var k := Kid(f.pages[q], local);
    assert Shape(f.pages[q], f.meta[q].level);
    var mid := Alloced(f, rev, p, pg, level);
    assert mid.pages[q] == f.pages[q] && mid.meta[q] == f.meta[q];
    if k in f.pages {
      CopyMirrors(mid.pages, p, k, level);
    } else {
      assert k !in mid.pages || k == p;
    }
  }

  lemma LookupsCompose(f: Forest, g: Forest, h: Forest)
    requires SameLookups(f, g) && SameLookups(g, h) && f.known <= g.known && f.revs.Keys <= g.revs.Keys
    ensures SameLookups(f, h)
  {
    forall s, offset: nat | s in f.known && s in f.revs && s in h.revs
      ensures Lookup(h, s, offset) == Lookup(f, s, offset)
    {
      assert Lookup(g, s, offset) == Lookup(f, s, offset);
    }
  }

  lemma ReplaceKeeps(f: Forest, rev: PagePtr, q: PagePtr, local: nat, p: PagePtr, pg: Page)
    requires AtSlot(f, rev, q, local) && Fits(f, rev, q, local, pg) && Fresh(f, p)
    ensures Inv(Replaced(f, rev, q, local, p, pg)) && SameLookups(f, Replaced(f, rev, q, local, p, pg))
  {
    hide Inv, SameLookups, Borrows, Mirrors, CanHang, KidsOk, LinksOk, RootsOk, CountsOk;
    var mid := Alloced(f, rev, p, pg, f.meta[q].level - 1);
    ReplaceAlloc(f, rev, q, local, p, pg);
    InvPages(mid);
    ReplaceCanHang(f, rev, q, local, p, pg);
    HangKeeps(mid, q, local, p, 0);
    HangLookups(mid, q, local, p, 0);
    LookupsCompose(f, mid, Replaced(f, rev, q, local, p, pg));
  }

  lemma ReplaceFrame(f: Forest, rev: PagePtr, q: PagePtr, local: nat, p: PagePtr, pg: Page)
    requires AtSlot(f, rev, q, local) && Fits(f, rev, q, local, pg) && Fresh(f, p)
    ensures var f' := Replaced(f, rev, q, local, p, pg);
            f'.loose == {} && OwnWrites(f, f', rev) && KeepsAbove(f, f', rev, f.meta[q].level)
  {
    hide Inv, Borrows, OwnWrites, KeepsAbove;
    ReplaceOwn(f, rev, q, local, p, pg);
    ReplaceAbove(f, rev, q, local, p, pg);
  }

  lemma ReplaceOwn(f: Forest, rev: PagePtr, q: PagePtr, local: nat, p: PagePtr, pg: Page)
    requires AtSlot(f, rev, q, local) && Fits(f, rev, q, local, pg) && Fresh(f, p)
    ensures OwnWrites(f, Replaced(f, rev, q, local, p, pg), rev) && Replaced(f, rev, q, local, p, pg).loose == {}
  {
    hide Inv, Borrows, Covered;
    InvPages(f);
    assert Shape(f.pages[q], f.meta[q].level);
  }

  lemma ReplaceAbove(f: Forest, rev: PagePtr, q: PagePtr, local: nat, p: PagePtr, pg: Page)
    requires AtSlot(f, rev, q, local) && Fits(f, rev, q, local, pg) && Fresh(f, p)
    ensures KeepsAbove(f, Replaced(f, rev, q, local, p, pg), rev, f.meta[q].level)
  {
    hide Inv, Borrows, Covered;
    InvPages(f);
    assert Shape(f.pages[q], f.meta[q].level);
  }

  lemma ReplaceOwns(f: Forest, rev: PagePtr, q: PagePtr, local: nat, p: PagePtr, pg: Page)
    requires AtSlot(f, rev, q, local) && Fits(f, rev, q, local, pg) && Fresh(f, p)
    ensures OwnsSlot(Replaced(f, rev, q, local, p, pg), rev, q, local)
  {
    hide Inv, Borrows, KidsOk, LinksOk, RootsOk, CountsOk, AncOk;
    InvPages(f);
    assert Shape(f.pages[q], f.meta[q].level);
  }

  /** Replacing what hangs at a slot by a page of the writing revision. */
  lemma ReplaceChild(f: Forest, rev: PagePtr, q: PagePtr, local: nat, p: PagePtr, pg: Page)
    requires AtSlot(f, rev, q, local) && Fits(f, rev, q, local, pg) && Fresh(f, p)
    ensures var f' := Replaced(f, rev, q, local, p, pg);
            && Inv(f') && f'.loose == {} && Fetches(f, f', rev) && KeepsAbove(f, f', rev, f.meta[q].level)
            && OwnsSlot(f', rev, q, local)
  {
    ReplaceKeeps(f, rev, q, local, p, pg);
    ReplaceFrame(f, rev, q, local, p, pg);
    ReplaceOwns(f, rev, q, local, p, pg);
    hide Inv, SameLookups, OwnWrites, KeepsAbove, OwnsSlot, Replaced;
  }

  // ----- the root of a revision -----

  ghost predicate AtRoot(f: Forest, rev: PagePtr) {
    && rev in f.known && rev in f.revs && f.loose == {} && Inv(f) && f.revs[rev].level >= 1
    && f.revs[rev].root.page in f.pages && f.revs[rev].root.page in f.meta
    && f.meta[f.revs[rev].root.page].level == f.revs[rev].level
    && Shape(f.pages[f.revs[rev].root.page], f.revs[rev].level)
    && (if f.revs[rev].root.stolen then f.meta[f.revs[rev].root.page].owner in f.known
        else f.meta[f.revs[rev].root.page].owner == rev)
  }

  lemma KnownHasRoot(f: Forest, rev: PagePtr)
    requires Inv(f) && f.loose == {} && rev in f.known
    ensures AtRoot(f, rev)
  {
    assert RootOk(f, rev);
  }

  ghost function RootReplaced(f: Forest, rev: PagePtr, p: PagePtr, pg: Page): Forest
    requires rev in f.revs
  {
    Rooted(Alloced(f, rev, p, pg, f.revs[rev].level), rev, p)
  }

  lemma RootCopyFits(f: Forest, rev: PagePtr)
    requires AtRoot(f, rev) && f.revs[rev].root.stolen
    ensures Shape(StolenCopy(f.pages[f.revs[rev].root.page]), f.revs[rev].level)
    ensures Borrows(f, StolenCopy(f.pages[f.revs[rev].root.page]), f.revs[rev].level, rev)
  {
    assert RootOk(f, rev);
    CopyBorrows(f, rev, f.revs[rev].root.page);
  }

  lemma ReplaceRootKeeps(f: Forest, rev: PagePtr, p: PagePtr)
    requires AtRoot(f, rev) && f.revs[rev].root.stolen && Fresh(f, p)
    ensures var f' := RootReplaced(f, rev, p, StolenCopy(f.pages[f.revs[rev].root.page]));
            Inv(f') && SameLookups(f, f')
  {
    hide Inv, SameLookups, Borrows, KidsOk, LinksOk, RootsOk, CountsOk, AncOk;
    var k, level := f.revs[rev].root.page, f.revs[rev].level;
    var pg := StolenCopy(f.pages[k]);
    var mid := Alloced(f, rev, p, pg, level);
    RootCopyFits(f, rev);
    AllocKeeps(f, rev, p, pg, level);
    AllocLookups(f, rev, p, pg, level);
    InvPages(mid);
    CopyMirrors(mid.pages, p, k, level);
    RootKeeps(mid, rev, p);
    RootLookups(mid, rev, p);
    LookupsCompose(f, mid, Rooted(mid, rev, p));
  }

  /** A stolen root is replaced by a copy that the revision owns. */
  lemma ReplaceRoot(f: Forest, rev: PagePtr, p: PagePtr)
    requires AtRoot(f, rev) && f.revs[rev].root.stolen && Fresh(f, p)
    ensures var f' := RootReplaced(f, rev, p, StolenCopy(f.pages[f.revs[rev].root.page]));
            && Inv(f') && Fetches(f, f', rev) && AtRoot(f', rev) && !f'.revs[rev].root.stolen
            && f'.revs[rev].level == f.revs[rev].level
  {
    hide Inv, SameLookups;
    ReplaceRootKeeps(f, rev, p);
    InvPages(f);
    RootCopyFits(f, rev);
  }

  ghost function Grown(f: Forest, rev: PagePtr, p: PagePtr): Forest
    requires rev in f.revs
  {
    Hoisted(Alloced(f, rev, p, ZeroPage(f.revs[rev].level + 1), f.revs[rev].level + 1), rev, p)
  }

  lemma BlankShape(level: nat)
    requires level >= 2
    ensures Shape(ZeroPage(2), level) && ZeroPage(2) == ZeroPage(level)
  {
  }

  /** The assignments that make a fresh blank page the root. */
  lemma GrownIs(f: Forest, rev: PagePtr, p: PagePtr)
    requires AtRoot(f, rev) && Fresh(f, p)
    ensures var (g, v) := (Alloced(f, rev, p, ZeroPage(2), f.revs[rev].level + 1), f.revs[rev]);
            && p in g.pages && g.pages[p].IndirectionPage? && |g.pages[p].refs| > 0 && rev in g.revs
            && v.root.page in g.meta
            && g.revs[rev].level == v.level
            && Grown(f, rev, p) == g.(pages := g.pages[p := IndirectionPage(g.pages[p].refs[0 := v.root])],
                                      revs := g.revs[rev := g.revs[rev].(level := v.level + 1, root := Ref(p, false))],
                                      meta := if v.root.stolen then g.meta
                                          else g.meta[v.root.page := g.meta[v.root.page].(up := ChildSlot(p, 0))],
                                      loose := g.loose - {p})
  {
    hide Inv, Shape, Covered;
    assert IndirectionPage(ZeroPage(2).refs[0 := f.revs[rev].root]) == Raised(f.revs[rev].root);
  }

  lemma GrowKeeps(f: Forest, rev: PagePtr, p: PagePtr)
    requires AtRoot(f, rev) && Fresh(f, p)
    ensures Inv(Grown(f, rev, p)) && SameLookups(f, Grown(f, rev, p))
  {
    hide Inv, SameLookups, Borrows, KidsOk, LinksOk, RootsOk, CountsOk, AncOk;
    var level := f.revs[rev].level + 1;
    var mid := Alloced(f, rev, p, ZeroPage(level), level);
    BlankBorrows(f, rev, level);
    AllocKeeps(f, rev, p, ZeroPage(level), level);
    AllocLookups(f, rev, p, ZeroPage(level), level);
    InvPages(mid);
    HoistKeeps(mid, rev, p);
    HoistLookups(mid, rev, p);
    LookupsCompose(f, mid, Hoisted(mid, rev, p));
  }

  /** Growing by one level keeps every mapping and leaves an owned root. */
  lemma Grow(f: Forest, rev: PagePtr, p: PagePtr)
    requires AtRoot(f, rev) && Fresh(f, p)
    ensures var f' := Grown(f, rev, p);
            && Inv(f') && Fetches(f, f', rev) && AtRoot(f', rev)
            && f'.revs[rev].level == f.revs[rev].level + 1
  {
    hide Inv, SameLookups, OwnWrites, Grown, PagesOk, Shape, Covered;
    GrowKeeps(f, rev, p);
    InvPages(f);
    GrowFrame(f, rev, p);
    GrowRoot(f, rev, p);
  }

  lemma GrowFrame(f: Forest, rev: PagePtr, p: PagePtr)
    requires AtRoot(f, rev) && Fresh(f, p)
    ensures OwnWrites(f, Grown(f, rev, p), rev)
  {
    hide Inv, Shape, Covered;
    InvPages(f);
  }

  lemma GrowRoot(f: Forest, rev: PagePtr, p: PagePtr)
    requires AtRoot(f, rev) && Fresh(f, p) && Inv(Grown(f, rev, p))
    ensures AtRoot(Grown(f, rev, p), rev) && Grown(f, rev, p).revs[rev].level == f.revs[rev].level + 1
  {
    hide Inv, Covered;
  }

  lemma FreshExists(used: set<PagePtr>)
    ensures exists p: PagePtr :: p != 0 && p !in used
  {
    var bound := Bound(used);
    assert bound + 1 !in used;
  }

  ghost function Bound(used: set<PagePtr>): (b: nat)
    ensures forall x :: x in used ==> x <= b
  {
    if used == {} then 0
    else
      var x :| x in used;
      var b := Bound(used - {x});
      assert forall y :: y in used ==> y == x || y in used - {x};
      if x > b then x else b
  }
}
