/** The copy-on-write page forest: every revision is a radix tree of pages, and
    trees share pages that only the allocating revision may write. */
module PageTree {
  import opened Radix

  type PagePtr = nat  // absolute page pointer without its flag bits; 0 is NullPage

  datatype BranchRevId = BranchRevId(branch: nat, revision: nat)

  /** Entry of a PageInfoPage: the segment page of one relative page, the revision that
      created it, and the remaining fields (profile, first free segment) as one tag. */
  datatype PageInfo = PageInfo(page: PagePtr, brid: BranchRevId, tag: nat)

  /** Entry of an IndirectionPage, or the root pointer: a page pointer with its stolen flag. */
  datatype Ref = Ref(page: PagePtr, stolen: bool)

  datatype Page =
    | SegmentPage(data: seq<bv8>)
    | InfoPage(infos: seq<PageInfo>)
    | IndirectionPage(refs: seq<Ref>)

  /** The ownedTypedPages counters of a revision page. */
  datatype Counts = Counts(segments: nat, infos: nat, indirections: nat)

  datatype Revision = Revision(brid: BranchRevId, root: Ref, level: nat, writable: bool, last: PagePtr, owned: Counts)

  const NULL_REF := Ref(0, false)
  const NULL_INFO := PageInfo(0, BranchRevId(0, 0), 0)

  // ----- bookkeeping that exists only in the proofs -----

  datatype Slot = RootSlot | ChildSlot(page: PagePtr, index: nat)

  /** Of each page: the revision that allocated it, its level, the first relative page
      it covers in that revision, and the slot that points to it there. */
  datatype Meta = Meta(owner: PagePtr, level: nat, base: nat, up: Slot)

  /** `anc` maps a revision to all revisions it inherits from, `known` are the revisions
      whose trees are maintained, `loose` are pages allocated but not linked yet. */
  datatype Forest = Forest(
    pages: map<PagePtr, Page>,
    revs: map<PagePtr, Revision>,
    meta: map<PagePtr, Meta>,
    anc: map<PagePtr, set<PagePtr>>,
    known: set<PagePtr>,
    loose: set<PagePtr>)

  // ----- well-formedness -----

  ghost predicate Shape(pg: Page, level: nat) {
    match pg
    case SegmentPage(_) => level == 0
    case InfoPage(infos) => level == 1 && |infos| == INFO_POINTERS
    case IndirectionPage(refs) => level >= 2 && |refs| == INDIRECTION_POINTERS
  }

  ghost function Kid(pg: Page, i: nat): PagePtr {
    match pg
    case SegmentPage(_) => 0
    case InfoPage(infos) => if i < |infos| then infos[i].page else 0
    case IndirectionPage(refs) => if i < |refs| then refs[i].page else 0
  }

  ghost predicate PagesOk(f: Forest) {
    && f.meta.Keys == f.pages.Keys
    && forall p :: p in f.pages ==> p != 0 && p !in f.revs && Shape(f.pages[p], f.meta[p].level)
  }

  /** The flag at slot i tells whether revision r allocated the page below it. */
  ghost predicate FlagOk(f: Forest, pg: Page, i: nat, r: PagePtr)
    requires pg.InfoPage? && i < |pg.infos| ==> pg.infos[i].page in f.meta && f.meta[pg.infos[i].page].owner in f.revs
    requires pg.IndirectionPage? && i < |pg.refs| ==> pg.refs[i].page in f.meta
  {
    match pg
    case SegmentPage(_) => false
    case InfoPage(infos) => i < |infos| && infos[i].brid == f.revs[f.meta[infos[i].page].owner].brid
    case IndirectionPage(refs) => i < |refs| && (refs[i].stolen <==> f.meta[refs[i].page].owner != r)
  }

  /** Page c may hang at slot i of a page `pg` of revision r and the given level. */
  ghost predicate KidFits(f: Forest, pg: Page, i: nat, level: nat, r: PagePtr) {
    var c := Kid(pg, i);
    && c in f.pages && c in f.meta && c !in f.loose
    && r in f.anc
    && f.meta[c].level == level - 1
    && (f.meta[c].owner == r || f.meta[c].owner in f.anc[r])
    && f.meta[c].owner in f.revs
    && FlagOk(f, pg, i, r)
  }

  ghost predicate KidOk(f: Forest, p: PagePtr, i: nat)
    requires p in f.pages && p in f.meta
  {
    var c, m := Kid(f.pages[p], i), f.meta[p];
    && KidFits(f, f.pages[p], i, m.level, m.owner)
    && (f.meta[c].owner == m.owner ==>
          p !in f.loose && f.meta[c].up == ChildSlot(p, i) && f.meta[c].base == m.base + i * Covered(f.meta[c].level))
  }

  ghost predicate KidsOk(f: Forest)
    requires PagesOk(f)
  {
    forall p, i: nat :: p in f.pages && f.meta[p].owner in f.known && Kid(f.pages[p], i) != 0 ==> KidOk(f, p, i)
  }

  ghost predicate RootOk(f: Forest, r: PagePtr)
    requires r in f.revs
  {
    var v := f.revs[r];
    var c := v.root.page;
    && c in f.pages && c in f.meta && c !in f.loose && r in f.anc
    && v.level >= 1 && f.meta[c].level == v.level
    && (f.meta[c].owner == r || f.meta[c].owner in f.anc[r])
    && (v.root.stolen <==> f.meta[c].owner != r)
    && (f.meta[c].owner == r ==> f.meta[c].up == RootSlot && f.meta[c].base == 0)
  }

  ghost predicate AncOk(f: Forest) {
    && f.known <= f.revs.Keys && f.known <= f.anc.Keys
    && (forall s :: s in f.known ==> f.anc[s] <= f.known && s !in f.anc[s])
    && (forall s, t :: s in f.known && t in f.anc[s] ==>
          f.anc[t] <= f.anc[s] && f.revs[t].brid != f.revs[s].brid && !f.revs[t].writable)
  }

  ghost predicate RootsOk(f: Forest)
    requires f.known <= f.revs.Keys
  {
    forall r :: r in f.known ==> RootOk(f, r)
  }

  /** An owned page that is not loose hangs where its meta says. */
  ghost predicate LinkOk(f: Forest, p: PagePtr)
    requires p in f.meta
  {
    var m := f.meta[p];
    && m.owner in f.revs
    && m.level <= f.revs[m.owner].level
    && match m.up
       case RootSlot => f.revs[m.owner].root == Ref(p, false)
       case ChildSlot(q, i) =>
         q in f.pages && q in f.meta && q !in f.loose && f.meta[q].owner == m.owner && Kid(f.pages[q], i) == p
  }

  ghost predicate LinksOk(f: Forest)
    requires PagesOk(f)
  {
    forall p :: p in f.pages && f.meta[p].owner in f.known && p !in f.loose ==> LinkOk(f, p)
  }

  ghost function OwnedAt(f: Forest, r: PagePtr, kind: nat): set<PagePtr> {
    set p | p in f.pages && p in f.meta && f.meta[p].owner == r && Kind(f.meta[p].level) == kind
  }

  ghost function Kind(level: nat): nat {
    if level >= 2 then 2 else level
  }

  ghost predicate CountOk(f: Forest, r: PagePtr)
    requires r in f.revs
  {
    f.revs[r].owned == Counts(|OwnedAt(f, r, 0)|, |OwnedAt(f, r, 1)|, |OwnedAt(f, r, 2)|)
  }

  ghost predicate CountsOk(f: Forest)
    requires f.known <= f.revs.Keys
  {
    forall r :: r in f.known ==> CountOk(f, r)
  }

  ghost predicate Inv(f: Forest) {
    PagesOk(f) && AncOk(f) && KidsOk(f) && RootsOk(f) && LinksOk(f) && CountsOk(f) && f.loose <= f.pages.Keys
  }

  // ----- what a revision reads -----

  /** One relative page as a revision sees it: its PageInfo and the bytes of its segment page. */
  datatype Leaf = Leaf(info: PageInfo, data: seq<bv8>)

  const NULL_LEAF := Leaf(NULL_INFO, [])

  ghost function LeafOfInfo(pages: map<PagePtr, Page>, info: PageInfo): Leaf {
    Leaf(info, if info.page in pages && pages[info.page].SegmentPage? then pages[info.page].data else [])
  }

  /** The PageInfoPage on the path of an offset, or NullPage. */
  ghost function InfoPageAt(pages: map<PagePtr, Page>, p: PagePtr, level: nat, offset: nat): PagePtr
    decreases level
  {
    if p !in pages then 0
    else if level <= 1 then p
    else InfoPageAt(pages, Kid(pages[p], SlotOf(level, offset)), level - 1, RestOf(level, offset))
  }

  ghost function LeafAt(pages: map<PagePtr, Page>, p: PagePtr, level: nat, offset: nat): Leaf
    decreases level
  {
    if p !in pages then NULL_LEAF
    else if level <= 1 then
      if pages[p].InfoPage? && offset < |pages[p].infos| then LeafOfInfo(pages, pages[p].infos[offset]) else NULL_LEAF
    else LeafAt(pages, Kid(pages[p], SlotOf(level, offset)), level - 1, RestOf(level, offset))
  }

  /** The whole mapping of a revision; relative pages beyond its covered area are absent. */
  ghost function Lookup(f: Forest, r: PagePtr, offset: nat): Leaf
    requires r in f.revs
  {
    if offset < Covered(f.revs[r].level) then LeafAt(f.pages, f.revs[r].root.page, f.revs[r].level, offset)
        else NULL_LEAF
  }

  // ----- reading depends only on pages of the revision and its ancestors -----

  ghost predicate Closed(f: Forest, a: set<PagePtr>) {
    a <= f.known && a <= f.anc.Keys && forall s :: s in a ==> f.anc[s] <= a
  }

  /** All pages owned in `a` are the same in the two page maps. */
  ghost predicate SamePages(f: Forest, a: set<PagePtr>, pages: map<PagePtr, Page>)
    requires f.meta.Keys == f.pages.Keys
  {
    forall q :: q in f.pages && f.meta[q].owner in a ==> q in pages && pages[q] == f.pages[q]
  }

  lemma {:induction false} LeafFrame(f: Forest, a: set<PagePtr>, pages: map<PagePtr, Page>, p: PagePtr, level: nat,
      offset: nat)
    requires PagesOk(f) && KidsOk(f) && Closed(f, a) && SamePages(f, a, pages) && 0 !in pages
    requires p == 0 || (p in f.pages && f.meta[p].owner in a && f.meta[p].level == level)
    ensures LeafAt(pages, p, level, offset) == LeafAt(f.pages, p, level, offset)
    decreases level
  {
    if p != 0 {
      if level <= 1 {
        if f.pages[p].InfoPage? && offset < |f.pages[p].infos| {
          var c := Kid(f.pages[p], offset);
          if c != 0 {
            assert KidOk(f, p, offset);
          }
        }
      } else {
        var c := Kid(f.pages[p], SlotOf(level, offset));
        if c != 0 {
          assert KidOk(f, p, SlotOf(level, offset));
        }
        LeafFrame(f, a, pages, c, level - 1, RestOf(level, offset));
      }
    }
  }
}
