/** Whole runs of the store: any sequence of operations, and what a committed revision
    reads throughout. */
module Snapshots {
  import opened Radix
  import opened PageTree
  import opened TreeSteps
  import opened RevisionSteps
  import opened EntrySteps
  import opened TreeWalk
  import opened Writing
  import opened PathCopies
  import opened Branches
  import opened PersistentStore
  import opened BranchManager

  datatype Operation =
    | CreateRevision(branch: nat, forceNoInherit: bool)
    | Fork(branch: nat, revision: nat)
    | Fetch(branch: nat, revision: nat, page: nat, write: bool)
    | Write(branch: nat, revision: nat, page: nat, data: seq<bv8>)
    | NewSegment(branch: nat, revision: nat, page: nat, data: seq<bv8>, tag: nat)
    | SetTag(branch: nat, revision: nat, page: nat, tag: nat)
    | Commit(branch: nat, revision: nat)
    | DropRange(branch: nat, from: nat, to: nat)
    | DeleteBranch(branch: nat)

  /** What a run goes through: the pages and the branch lists. */
  datatype View = View(forest: Forest, branches: map<nat, Branch>, chains: map<nat, seq<PagePtr>>, next: nat)

  ghost predicate Legal(v: View) {
    Inv(v.forest) && BranchInv(v.forest, v.branches, v.chains, v.next)
  }

  predicate Writes(op: Operation) {
    op.Fetch? || op.Write? || op.NewSegment? || op.SetTag?
  }

  /** Only pages that revision r allocated are different, and no mapping but that of r. */
  ghost predicate WrittenBy(v: View, w: View, r: PagePtr) {
    && r in v.forest.revs
    && OwnWrites(v.forest, w.forest, r)
    && forall s, offset: nat :: s in v.forest.known && s != r && s in v.forest.revs && s in w.forest.revs ==>
         Lookup(w.forest, s, offset) == Lookup(v.forest, s, offset)
  }

  // ----- what each operation does -----

  /** The revision that a branch and a revision id name, the newest one for 0; NullPage if there is none. */
  ghost function Named(v: View, b: nat, revision: nat): PagePtr {
    if b !in v.chains then 0
    else if revision == 0 then Head(v.chains[b])
    else if exists r: PagePtr :: HasId(v, b, revision, r) then
      var r: PagePtr :| HasId(v, b, revision, r);
      r
    else 0
  }

  ghost predicate HasId(v: View, b: nat, revision: nat, r: PagePtr) {
    b in v.chains && r in v.chains[b] && r in v.forest.revs && v.forest.revs[r].brid.revision == revision
  }

  ghost predicate Open(v: View, r: PagePtr) {
    r != 0 && r in v.forest.known && r in v.forest.revs && v.forest.revs[r].writable
  }

  /** The page is there, in a revision that is open. */
  ghost predicate CanWrite(v: View, r: PagePtr, page: nat) {
    Open(v, r) && page < RELATIVE_PAGES && Present(v.forest, r, page)
  }

  /** The page is not there, and one more level of the tree reaches it. */
  ghost predicate CanAdd(v: View, r: PagePtr, page: nat) {
    Open(v, r) && page < RELATIVE_PAGES && !Present(v.forest, r, page) && InReach(v, r, page)
  }

  ghost predicate InReach(v: View, r: PagePtr, page: nat)
    requires r in v.forest.revs
  {
    page - page % INFO_POINTERS < Covered(v.forest.revs[r].level) * INDIRECTION_POINTERS
  }

  /** Revision r reads the bytes and the tag at the page, and all else as before. Only the path to the page and the page
      itself have been allocated. */
  ghost predicate Stores(v: View, w: View, r: PagePtr, page: nat, data: seq<bv8>, tag: nat) {
    && r in w.forest.revs && w == v.(forest := w.forest)
    && var leaf := Lookup(w.forest, r, page);
       && leaf.data == data && leaf.info.tag == tag && leaf.info.page != 0
       && WritesAt(v.forest, w.forest, r, page, leaf) && Copied(v.forest, w.forest, r, page, {leaf.info.page})
  }

  ghost predicate DoesWrite(v: View, b: nat, revision: nat, page: nat, data: seq<bv8>, w: View) {
    var r := Named(v, b, revision);
    if CanWrite(v, r, page) then Stores(v, w, r, page, data, Lookup(v.forest, r, page).info.tag) else w == v
  }

  ghost predicate DoesAdd(v: View, b: nat, revision: nat, page: nat, data: seq<bv8>, tag: nat, w: View) {
    var r := Named(v, b, revision);
    if CanAdd(v, r, page) then Stores(v, w, r, page, data, tag) else w == v
  }

  ghost predicate DoesTag(v: View, b: nat, revision: nat, page: nat, tag: nat, w: View) {
    var r := Named(v, b, revision);
    if CanWrite(v, r, page) then Stores(v, w, r, page, Lookup(v.forest, r, page).data, tag) else w == v
  }

  /** A fetch changes no mapping, and for reading nothing at all; after one for writing the entry can be written. */
  ghost predicate DoesFetch(v: View, b: nat, revision: nat, page: nat, write: bool, w: View) {
    var r := Named(v, b, revision);
    if r != 0 && r in v.forest.revs && page < RELATIVE_PAGES && write && InReach(v, r, page)
    then
      && w == v.(forest := w.forest) && Fetches(v.forest, w.forest, r) && Copied(v.forest, w.forest, r, page, {})
      && PagesOk(w.forest) && r in w.forest.revs && Writable(w.forest, r, page)
    else w == v
  }

  ghost predicate DoesCommit(v: View, b: nat, revision: nat, w: View) {
    var r := Named(v, b, revision);
    if r != 0 && r in v.forest.revs
    then w == v.(forest := Rewritten(v.forest, r, v.forest.revs[r].(writable := false)))
    else w == v
  }

  /** One revision r more, at the head of branch b, and every other revision reads as before. */
  ghost predicate Arrived(v: View, w: View, b: nat, r: PagePtr) {
    && r != 0 && r !in v.forest.known && r in w.forest.revs && w.forest.revs[r].writable
    && w.forest.known == v.forest.known + {r}
    && b in w.branches && b in w.chains && w.branches[b].last == r
    && SameLookups(v.forest, w.forest)
  }

  /** The new revision has the next id and reads what the newest one reads, or nothing; the newest one is closed. */
  ghost predicate DoesCreate(v: View, b: nat, forceNoInherit: bool, w: View) {
    if b !in v.branches || b !in v.chains || (!forceNoInherit && NewestWritable(v.forest, v.chains[b])) then w == v
    else
      b in w.chains && |w.chains[b]| > 0 &&
      var r := w.chains[b][0];
      && Arrived(v, w, b, r) && w.next == v.next
      && w.branches == v.branches[b := v.branches[b].(last := r)] && w.chains == v.chains[b := [r] + v.chains[b]]
      && w.forest.revs[r].brid == BranchRevId(b, NextRevision(v.forest, v.chains[b]))
      && (forall offset: nat :: Lookup(w.forest, r, offset)
           == if forceNoInherit then NULL_LEAF else NewestLookup(v.forest, v.chains[b], offset))
      && StillThere(NewestClosed(v.forest, v.chains[b]), w.forest)
      && Added(NewestClosed(v.forest, v.chains[b]), w.forest, v.chains[b], w.forest.revs[r].brid, forceNoInherit, r)
  }

  /** A committed revision is forked: a new branch, whose one revision reads what the source reads. */
  ghost predicate DoesFork(v: View, b: nat, revision: nat, w: View) {
    var s := Named(v, b, revision);
    if s == 0 || s !in v.forest.revs || v.forest.revs[s].writable then w == v
    else
      v.next in w.chains && |w.chains[v.next]| > 0 &&
      var r := w.chains[v.next][0];
      && Arrived(v, w, v.next, r) && w.next == v.next + 1
      && w.branches == v.branches[v.next := Branch(v.forest.revs[s].brid, r)] && w.chains == v.chains[v.next := [r]]
      && w.forest.revs[r].brid == BranchRevId(v.next, 1)
      && (forall offset: nat :: Lookup(w.forest, r, offset) == Lookup(v.forest, s, offset))
      && StillThere(v.forest, w.forest)
      && s in v.forest.anc && w.forest == Inherited(v.forest, r, s, BranchRevId(v.next, 1), 0)
  }

  /** Exactly the revisions of the range are unlinked; nothing is freed. */
  ghost predicate DoesDrop(v: View, b: nat, from: nat, to: nat, w: View) {
    if b !in v.branches || b !in v.chains || (from == 0 && to == 0) then w == v
    else
      var kept := Kept(v.forest, v.chains[b], from, to);
      && w.chains == v.chains[b := kept] && w.branches == v.branches[b := v.branches[b].(last := Head(kept))]
      && w.next == v.next && Relinked(v.forest, w.forest, kept)
  }

  /** The branch and its dependants go, with exactly the pages that their linked revisions own. */
  ghost predicate DoesDelete(v: View, b: nat, w: View) {
    if b !in v.branches then w == v
    else
      var gone := Dependants(v.branches, b);
      && w.branches == v.branches - gone && w.chains == v.chains - gone && w.next == v.next
      && FreedExactly(v.forest, w.forest, Linked(v.chains, gone))
  }

  ghost predicate Does(v: View, op: Operation, w: View) {
    match op
    case CreateRevision(b, forceNoInherit) => DoesCreate(v, b, forceNoInherit, w)
    case Fork(b, revision) => DoesFork(v, b, revision, w)
    case Fetch(b, revision, page, write) => DoesFetch(v, b, revision, page, write, w)
    case Write(b, revision, page, data) => DoesWrite(v, b, revision, page, data, w)
    case NewSegment(b, revision, page, data, tag) => DoesAdd(v, b, revision, page, data, tag, w)
    case SetTag(b, revision, page, tag) => DoesTag(v, b, revision, page, tag, w)
    case Commit(b, revision) => DoesCommit(v, b, revision, w)
    case DropRange(b, from, to) => DoesDrop(v, b, from, to, w)
    case DeleteBranch(b) => DoesDelete(v, b, w)
  }

  /** One step: what the operation does. Committed revisions stay as they are, only deleting a branch makes revisions
      disappear, and a write touches only what the writing revision allocated. */
  ghost predicate StepOk(v: View, op: Operation, w: View) {
    && Legal(w)
    && Does(v, op, w)
    && Evolves(v.forest, w.forest)
    && (!op.DeleteBranch? ==> v.forest.known <= w.forest.known)
    && (Writes(op) ==> w == v || exists r :: WrittenBy(v, w, r) && v.forest.revs[r].brid.branch == op.branch)
    && (op.DeleteBranch? ==>
          w.branches == v.branches - if op.branch in v.branches then Dependants(v.branches, op.branch) else {})
  }

  ghost predicate RunOk(run: seq<View>, ops: seq<Operation>) {
    |run| == |ops| + 1 && Legal(run[0]) && forall k :: 0 <= k < |ops| ==> StepOk(run[k], ops[k], run[k + 1])
  }

  // ----- writes keep the branches -----

  lemma WriteKeepsBranches(f: Forest, f': Forest, branches: map<nat, Branch>, chains: map<nat, seq<PagePtr>>, next: nat,
      r: PagePtr)
    requires Inv(f) && BranchInv(f, branches, chains, next) && OwnWrites(f, f', r)
    ensures BranchInv(f', branches, chains, next)
  {
    hide LineageOk, ChainsOk, BranchesOk, KidsOk, LinksOk, RootsOk, CountsOk;
    SameBranches(f, f', branches, chains, next);
  }

  lemma FetchEvolves(f: Forest, f': Forest, r: PagePtr)
    requires Fetches(f, f', r)
    ensures Evolves(f, f')
  {
    hide Lookup;
    forall s, offset: nat | s in f.known && s in f.revs && s in f'.known && s in f'.revs
      ensures Lookup(f', s, offset) == Lookup(f, s, offset)
    {
    }
  }

  lemma WriteEvolves(f: Forest, f': Forest, r: PagePtr, index: nat, leaf: Leaf)
    requires WritesAt(f, f', r, index, leaf) && r in f.revs && f.revs[r].writable
    ensures Evolves(f, f')
  {
    hide Lookup;
  }

  /** The entry that a fetch for reading finds is what the revision reads. */
  lemma ReadEntry(f: Forest, r: PagePtr, index: nat)
    requires Inv(f) && r in f.known && r in f.revs && index < Covered(f.revs[r].level) && EntryPage(f, r, index) != 0
    ensures var q := EntryPage(f, r, index);
            && q in f.pages && f.pages[q].InfoPage? && |f.pages[q].infos| == INFO_POINTERS
            && f.pages[q].infos[index % INFO_POINTERS] == Lookup(f, r, index).info
  {
    hide CountsOk, LinksOk;
    assert RootOk(f, r);
    AncClosed(f, r);
    PathOwner(f, f.anc[r] + {r}, f.revs[r].root.page, f.revs[r].level, index);
    InfoIndexIsRemainder(f.revs[r].level, index);
    EntryOfLeaf(f.pages, f.revs[r].root.page, f.revs[r].level, index);
  }

  lemma NoEntry(f: Forest, r: PagePtr, index: nat)
    requires Inv(f) && r in f.revs && index < Covered(f.revs[r].level) && EntryPage(f, r, index) == 0
    ensures Lookup(f, r, index).info.page == 0
  {
    EntryOfLeaf(f.pages, f.revs[r].root.page, f.revs[r].level, index);
  }

  lemma WrittenView(v: View, w: View, r: PagePtr, page: nat, leaf: Leaf)
    requires Legal(v) && WritesAt(v.forest, w.forest, r, page, leaf) && r in v.forest.revs && v.forest.revs[r].writable
    requires w == v.(forest := w.forest) && Inv(w.forest) && leaf.info.page != 0
    requires Copied(v.forest, w.forest, r, page, {leaf.info.page})
    ensures Legal(w) && Evolves(v.forest, w.forest) && WrittenBy(v, w, r) && w.forest.known == v.forest.known
    ensures Stores(v, w, r, page, leaf.data, leaf.info.tag)
  {
    hide Inv, BranchInv, Lookup;
    WriteEvolves(v.forest, w.forest, r, page, leaf);
    WriteKeepsBranches(v.forest, w.forest, v.branches, v.chains, v.next, r);
  }

  lemma FetchedView(v: View, w: View, r: PagePtr)
    requires Legal(v) && Fetches(v.forest, w.forest, r) && r in v.forest.revs
    requires w == v.(forest := w.forest) && Inv(w.forest)
    ensures Legal(w) && Evolves(v.forest, w.forest) && WrittenBy(v, w, r) && w.forest.known == v.forest.known
  {
    hide Inv, BranchInv, Lookup;
    FetchEvolves(v.forest, w.forest, r);
    WriteKeepsBranches(v.forest, w.forest, v.branches, v.chains, v.next, r);
  }

  lemma IdleStep(v: View, op: Operation)
    requires Legal(v) && Does(v, op, v) && (op.DeleteBranch? ==> op.branch !in v.branches)
    ensures StepOk(v, op, v)
  {
    hide Does, Legal;
    assert op.DeleteBranch? ==> v.branches == v.branches - {};
  }

  /** A write that was done is a step. */
  lemma WriteStep(v: View, op: Operation, w: View, r: PagePtr)
    requires Does(v, op, w) && Legal(w) && Evolves(v.forest, w.forest) && WrittenBy(v, w, r)
    requires w.forest.known == v.forest.known && Writes(op) && v.forest.revs[r].brid.branch == op.branch
    ensures StepOk(v, op, w)
  {
    hide Does, Legal, Evolves, WrittenBy;
  }

  // ----- naming revisions -----

  lemma NamedNewest(v: View, b: nat)
    requires Legal(v) && b in v.branches
    ensures Named(v, b, 0) == Head(v.chains[b])
  {
  }

  lemma NamedFound(v: View, b: nat, revision: nat, r: PagePtr)
    requires Legal(v) && b in v.branches && revision != 0 && HasId(v, b, revision, r)
    ensures Named(v, b, revision) == r
  {
    hide Inv, BranchesOk, LineageOk;
    var s := Named(v, b, revision);
    assert HasId(v, b, revision, s);
    SameId(v.forest, b, v.chains[b], r, s);
  }

  lemma SameId(f: Forest, b: nat, chain: seq<PagePtr>, r: PagePtr, s: PagePtr)
    requires ChainOk(f, b, chain) && r in chain && s in chain && r in f.revs && s in f.revs
    requires f.revs[r].brid.revision == f.revs[s].brid.revision
    ensures r == s
  {
    var i :| 0 <= i < |chain| && chain[i] == r;
    var j :| 0 <= j < |chain| && chain[j] == s;
  }

  lemma NamedNone(v: View, b: nat, revision: nat)
    requires revision != 0
    requires b in v.chains ==>
               forall r :: r in v.chains[b] ==> r in v.forest.revs && v.forest.revs[r].brid.revision != revision
    ensures Named(v, b, revision) == 0
  {
  }

  lemma NotThere(v: View, b: nat, revision: nat)
    requires Legal(v) && b !in v.branches
    ensures Named(v, b, revision) == 0
  {
  }

  lemma NamedIs(v: View, b: nat, revision: nat, r: PagePtr)
    requires Legal(v) && b in v.branches && b in v.chains
    requires revision == 0 ==> r == Head(v.chains[b])
    requires r != 0 ==> r in v.chains[b] && r in v.forest.revs
    requires r != 0 && revision != 0 ==> v.forest.revs[r].brid.revision == revision
    requires r == 0 && revision != 0 ==>
               forall x :: x in v.chains[b] ==> x in v.forest.revs && v.forest.revs[x].brid.revision != revision
    ensures Named(v, b, revision) == r
  {
    hide Legal, Named;
    if revision == 0 {
      NamedNewest(v, b);
    } else if r == 0 {
      NamedNone(v, b, revision);
    } else {
      NamedFound(v, b, revision, r);
    }
  }

  /** A revision that is named is a linked one of the branch. */
  lemma NamedIn(v: View, b: nat, revision: nat)
    requires Legal(v) && Named(v, b, revision) != 0
    ensures var r := Named(v, b, revision);
            b in v.branches && r in v.forest.known && r in v.forest.revs && v.forest.revs[r].brid.branch == b
  {
    hide Inv, BranchesOk, LineageOk, ChainOk;
    var r := Named(v, b, revision);
    assert r in v.chains[b];
    LinkedRevision(v.forest, b, v.chains[b], r);
  }

  lemma LinkedRevision(f: Forest, b: nat, chain: seq<PagePtr>, r: PagePtr)
    requires ChainOk(f, b, chain) && r in chain
    ensures r in f.known && r in f.revs && f.revs[r].brid.branch == b
  {
    var k :| 0 <= k < |chain| && chain[k] == r;
    assert LinkedOk(f, b, chain, k);
  }

  /** A client of the store: every operation names a branch and a revision of it, as the
      branch manager looks them up; 0 asks for the newest revision. */
  class Session {
    const mgr: BranchManager

    constructor (mgr: BranchManager)
      ensures this.mgr == mgr
    {
      this.mgr := mgr;
    }

    ghost function Now(): View
      reads this, mgr, mgr.store
    {
      View(mgr.store.F(), mgr.branches, mgr.chains, mgr.nextBranchId)
    }

    /** lookupRevision, as the branch manager finds the revision that an operation names. */
    method Locate(branch: nat, revision: nat) returns (r: PagePtr)
      requires mgr.Valid()
      ensures r == Named(Now(), branch, revision)
      ensures r != 0 ==> r in mgr.store.known && r in mgr.store.revs && mgr.store.revs[r].brid.branch == branch
    {
      hide Inv, LineageOk, BranchesOk, ChainOk, Named, HasId;
      if branch !in mgr.branches {
        NotThere(Now(), branch, revision);
        return 0;
      }
      var id;
      r, id := mgr.LookupRevision(branch, revision);
      NamedIs(Now(), branch, revision, r);
      if r != 0 {
        NamedIn(Now(), branch, revision);
      }
    }

    /** Whether a relative page has a segment page, by a fetch for reading. */
    method IsPresent(r: PagePtr, page: nat) returns (present: bool)
      requires mgr.Valid() && r in mgr.store.known && r in mgr.store.revs && page < RELATIVE_PAGES
      modifies mgr.store
      ensures mgr.store.F() == old(mgr.store.F()) && present == Present(mgr.store.F(), r, page)
    {
      hide Inv, Owners, BranchInv, Lookup, EntryPage, SameLookups, OwnWrites;
      var res, index := mgr.store.DoGetPageInfoPage(r, page, false);
      present := false;
      if page < Covered(mgr.store.revs[r].level) {
        if EntryPage(mgr.store.F(), r, page) != 0 {
          ReadEntry(mgr.store.F(), r, page);
        } else {
          NoEntry(mgr.store.F(), r, page);
        }
      }
      if res.Found? {
        present := mgr.store.pages[res.page].infos[index].page != 0;
      }
    }

    method Write(branch: nat, revision: nat, page: nat, data: seq<bv8>) returns (ok: bool)
      requires mgr.Valid()
      modifies mgr.store
      ensures mgr.Valid() && StepOk(old(Now()), Operation.Write(branch, revision, page, data), Now())
      ensures ok <==> CanWrite(old(Now()), Named(old(Now()), branch, revision), page)
    {
      hide Inv, OwnWrites, Owners, BranchInv, Lookup, Evolves, EntryPage, Present, Named, Stores, StepOk, WritesAt,
           Copied;
      ghost var v, op := Now(), Operation.Write(branch, revision, page, data);
      var r := Locate(branch, revision);
      if r == 0 || !mgr.store.revs[r].writable || page >= RELATIVE_PAGES {
        IdleStep(v, op);
        return false;
      }
      var present := IsPresent(r, page);
      if !present {
        IdleStep(v, op);
        return false;
      }
      mgr.store.WriteSegmentPage(r, page, data);
      WrittenView(v, Now(), r, page, Leaf(Entry(mgr.store.F(), r, page), data));
      WriteStep(v, op, Now(), r);
      ok := true;
    }

    method NewSegment(branch: nat, revision: nat, page: nat, data: seq<bv8>, tag: nat) returns (ok: bool)
      requires mgr.Valid()
      modifies mgr.store
      ensures mgr.Valid() && StepOk(old(Now()), Operation.NewSegment(branch, revision, page, data, tag), Now())
      ensures ok <==> CanAdd(old(Now()), Named(old(Now()), branch, revision), page)
    {
      hide Inv, OwnWrites, Owners, BranchInv, Lookup, Evolves, EntryPage, Present, Named, Stores, StepOk, WritesAt,
           Copied;
      ghost var v, op := Now(), Operation.NewSegment(branch, revision, page, data, tag);
      var r := Locate(branch, revision);
      if r == 0 || !mgr.store.revs[r].writable || page >= RELATIVE_PAGES {
        IdleStep(v, op);
        return false;
      }
      var present := IsPresent(r, page);
      if present {
        IdleStep(v, op);
        return false;
      }
      ok := mgr.store.NewSegmentPage(r, page, data, tag);
      if !ok {
        IdleStep(v, op);
        return;
      }
      WrittenView(v, Now(), r, page, Leaf(Entry(mgr.store.F(), r, page), data));
      WriteStep(v, op, Now(), r);
      ok := true;
    }

    method SetTag(branch: nat, revision: nat, page: nat, tag: nat) returns (ok: bool)
      requires mgr.Valid()
      modifies mgr.store
      ensures mgr.Valid() && StepOk(old(Now()), Operation.SetTag(branch, revision, page, tag), Now())
      ensures ok <==> CanWrite(old(Now()), Named(old(Now()), branch, revision), page)
    {
      hide Inv, OwnWrites, Owners, BranchInv, Lookup, Evolves, EntryPage, Named, Stores, StepOk, WritesAt,
           Copied;
      ghost var v, op := Now(), Operation.SetTag(branch, revision, page, tag);
      var r := Locate(branch, revision);
      if r == 0 || !mgr.store.revs[r].writable || page >= RELATIVE_PAGES {
        IdleStep(v, op);
        return false;
      }
      var present := IsPresent(r, page);
      if !present {
        IdleStep(v, op);
        return false;
      }
      mgr.store.SetTag(r, page, tag);
      CopiedMore(v.forest, mgr.store.F(), r, page, {}, {Lookup(v.forest, r, page).info.page});
      WrittenView(v, Now(), r, page, Lookup(v.forest, r, page).(info := Lookup(v.forest, r, page).info.(tag := tag)));
      WriteStep(v, op, Now(), r);
      ok := true;
    }

    method Fetch(branch: nat, revision: nat, page: nat, write: bool)
      requires mgr.Valid()
      modifies mgr.store
      ensures mgr.Valid() && StepOk(old(Now()), Operation.Fetch(branch, revision, page, write), Now())
    {
      hide Inv, OwnWrites, Owners, BranchInv, Lookup, Evolves, EntryPage, SameLookups, Named, StepOk, Fetches, Copied;
      ghost var v, op := Now(), Operation.Fetch(branch, revision, page, write);
      var r := Locate(branch, revision);
      if r == 0 || page >= RELATIVE_PAGES {
        IdleStep(v, op);
        return;
      }
      var res, index := mgr.store.DoGetPageInfoPage(r, page, write);
      InvPages(mgr.store.F());
      FetchedView(v, Now(), r);
      WriteStep(v, op, Now(), r);
    }

    method Commit(branch: nat, revision: nat)
      requires mgr.Valid()
      modifies mgr.store
      ensures mgr.Valid() && StepOk(old(Now()), Operation.Commit(branch, revision), Now())
    {
      hide Inv, Owners, BranchInv, Evolves, Named;
      ghost var v, op := Now(), Operation.Commit(branch, revision);
      var r := Locate(branch, revision);
      if r == 0 {
        IdleStep(v, op);
      } else {
        mgr.Commit(r);
      }
    }

    method Fork(branch: nat, revision: nat)
      requires mgr.Valid()
      modifies mgr, mgr.store
      ensures mgr.Valid() && StepOk(old(Now()), Operation.Fork(branch, revision), Now())
    {
      hide Inv, Owners, BranchInv, Evolves, Named, Lookup, SameLookups, StillThere;
      ghost var v, op := Now(), Operation.Fork(branch, revision);
      var source := Locate(branch, revision);
      if source == 0 || mgr.store.revs[source].writable {
        IdleStep(v, op);
      } else {
        var r := mgr.ForkRevision(source);
      }
    }

    method CreateRevision(branch: nat, forceNoInherit: bool)
      requires mgr.Valid()
      modifies mgr, mgr.store
      ensures mgr.Valid() && StepOk(old(Now()), Operation.CreateRevision(branch, forceNoInherit), Now())
    {
      hide Inv, Owners, BranchInv, Evolves, Lookup, SameLookups, StillThere, Added, NextRevision, NewestLookup;
      ghost var v, op := Now(), Operation.CreateRevision(branch, forceNoInherit);
      if branch !in mgr.branches {
        IdleStep(v, op);
      } else {
        BranchChain(v.forest, v.branches, v.chains, v.next, branch);
        var r := mgr.CreateRevision(branch, forceNoInherit);
      }
    }

    method DropRange(branch: nat, from: nat, to: nat)
      requires mgr.Valid()
      modifies mgr, mgr.store
      ensures mgr.Valid() && StepOk(old(Now()), Operation.DropRange(branch, from, to), Now())
    {
      hide Inv, Owners, BranchInv, Evolves, Kept, Relinked;
      ghost var v, op := Now(), Operation.DropRange(branch, from, to);
      if branch !in mgr.branches || (from == 0 && to == 0) {
        IdleStep(v, op);
      } else {
        BranchChain(v.forest, v.branches, v.chains, v.next, branch);
        mgr.DropRange(branch, from, to);
      }
    }

    method DeleteBranch(branch: nat)
      requires mgr.Valid()
      modifies mgr, mgr.store
      ensures mgr.Valid() && StepOk(old(Now()), Operation.DeleteBranch(branch), Now())
    {
      hide Inv, Owners, BranchInv, Evolves, Dependants, FreedExactly;
      if branch in mgr.branches {
        mgr.DeleteBranch(branch);
      } else {
        IdleStep(Now(), Operation.DeleteBranch(branch));
      }
    }

    method Perform(op: Operation)
      requires mgr.Valid()
      modifies mgr, mgr.store
      ensures mgr.Valid() && StepOk(old(Now()), op, Now())
    {
      hide Inv, Owners, BranchInv, StepOk;
      var ok;
      match op
      case CreateRevision(b, forceNoInherit) => CreateRevision(b, forceNoInherit);
      case Fork(b, revision) => Fork(b, revision);
      case Fetch(b, revision, page, write) => Fetch(b, revision, page, write);
      case Write(b, revision, page, data) => ok := Write(b, revision, page, data);
      case NewSegment(b, revision, page, data, tag) => ok := NewSegment(b, revision, page, data, tag);
      case SetTag(b, revision, page, tag) => ok := SetTag(b, revision, page, tag);
      case Commit(b, revision) => Commit(b, revision);
      case DropRange(b, from, to) => DropRange(b, from, to);
      case DeleteBranch(b) => DeleteBranch(b);
    }

    /** Any run keeps every step in order. */
    method Run(ops: seq<Operation>) returns (ghost run: seq<View>)
      requires mgr.Valid()
      modifies mgr, mgr.store
      ensures mgr.Valid() && RunOk(run, ops) && run[0] == old(Now()) && run[|ops|] == Now()
    {
      hide Inv, Owners, BranchInv, StepOk;
      run := [Now()];
      for i := 0 to |ops|
        invariant mgr.Valid() && |run| == i + 1 && run[0] == old(Now()) && run[i] == Now()
        invariant forall k :: 0 <= k < i ==> StepOk(run[k], ops[k], run[k + 1])
      {
        Perform(ops[i]);
        run := run + [Now()];
      }
    }
  }

  // ----- snapshot isolation -----

  ghost predicate Committed(v: View, s: PagePtr) {
    s in v.forest.known && s in v.forest.revs && !v.forest.revs[s].writable
  }

  /** Revision s is there, with the same id and the same mapping. */
  ghost predicate ReadsSame(v: View, w: View, s: PagePtr) {
    && s in v.forest.revs && s in w.forest.revs && w.forest.revs[s].brid == v.forest.revs[s].brid
    && forall offset: nat :: Lookup(w.forest, s, offset) == Lookup(v.forest, s, offset)
  }

  /** Snapshot isolation: as long as a committed revision is not deleted, it reads the same. */
  lemma {:induction false} CommittedNeverChanges(run: seq<View>, ops: seq<Operation>, i: nat, j: nat, s: PagePtr)
    requires RunOk(run, ops) && i <= j < |run| && Committed(run[i], s)
    requires forall k :: i <= k <= j ==> s in run[k].forest.known
    ensures Committed(run[j], s) && ReadsSame(run[i], run[j], s)
    decreases j
  {
    hide StepOk, ReadsSame, Legal, Does;
    if i < j {
      CommittedNeverChanges(run, ops, i, j - 1, s);
      StepReadsSame(run[j - 1], ops[j - 1], run[j], s);
      ReadsSameOn(run[i], run[j - 1], run[j], s);
    } else {
      ReadsSameSelf(run[i], s);
    }
  }

  lemma StepReadsSame(v: View, op: Operation, w: View, s: PagePtr)
    requires StepOk(v, op, w) && Committed(v, s) && s in w.forest.known
    ensures Committed(w, s) && ReadsSame(v, w, s)
  {
    hide Lookup, BranchInv, Does;
  }

  lemma ReadsSameOn(u: View, v: View, w: View, s: PagePtr)
    requires ReadsSame(u, v, s) && ReadsSame(v, w, s)
    ensures ReadsSame(u, w, s)
  {
    hide Lookup;
  }

  lemma ReadsSameSelf(v: View, s: PagePtr)
    requires s in v.forest.revs
    ensures ReadsSame(v, v, s)
  {
  }

  /** Without deleting branches, nothing that was committed is ever lost. */
  lemma {:induction false} NothingIsLost(run: seq<View>, ops: seq<Operation>, i: nat, j: nat)
    requires RunOk(run, ops) && i <= j < |run| && forall k :: i <= k < j ==> !ops[k].DeleteBranch?
    ensures run[i].forest.known <= run[j].forest.known
    decreases j
  {
    hide Does, Legal, Evolves;
    if i < j {
      NothingIsLost(run, ops, i, j - 1);
      assert StepOk(run[j - 1], ops[j - 1], run[j]);
    }
  }

  lemma SnapshotIsolation(run: seq<View>, ops: seq<Operation>, i: nat, j: nat, s: PagePtr)
    requires RunOk(run, ops) && i <= j < |run| && Committed(run[i], s)
    requires forall k :: i <= k < j ==> !ops[k].DeleteBranch?
    ensures Committed(run[j], s) && ReadsSame(run[i], run[j], s)
  {
    forall k | i <= k <= j
      ensures s in run[k].forest.known
    {
      NothingIsLost(run, ops, i, k);
    }
    CommittedNeverChanges(run, ops, i, j, s);
  }

  /** With deletions: a committed revision that stays linked in its branch reads the same. */
  lemma LinkedIsolation(run: seq<View>, ops: seq<Operation>, i: nat, j: nat, b: nat, s: PagePtr)
    requires RunOk(run, ops) && i <= j < |run| && Committed(run[i], s)
    requires forall k :: i <= k <= j ==> b in run[k].chains && s in run[k].chains[b]
    ensures Committed(run[j], s) && ReadsSame(run[i], run[j], s)
  {
    forall k | i <= k <= j
      ensures s in run[k].forest.known
    {
      EveryViewLegal(run, ops, k);
      LinkedRevision(run[k].forest, b, run[k].chains[b], s);
    }
    CommittedNeverChanges(run, ops, i, j, s);
  }

  lemma EveryViewLegal(run: seq<View>, ops: seq<Operation>, k: nat)
    requires RunOk(run, ops) && k < |run|
    ensures Legal(run[k])
  {
    hide Does, Legal, Evolves;
    if k > 0 {
      assert StepOk(run[k - 1], ops[k - 1], run[k]);
    }
  }

  /** At every moment of every run: ids strictly decrease along each branch, and only its
      newest revision can be open for writing. */
  lemma OnlyNewestWritable(run: seq<View>, ops: seq<Operation>, k: nat, b: nat, i: nat, j: nat)
    requires RunOk(run, ops) && k < |run| && b in run[k].branches && b in run[k].chains && i < j < |run[k].chains[b]|
    ensures var (f, c) := (run[k].forest, run[k].chains[b]);
            && c[i] in f.revs && c[j] in f.revs && f.revs[c[i]].brid.revision > f.revs[c[j]].brid.revision
            && !f.revs[c[j]].writable
  {
    EveryViewLegal(run, ops, k);
    var f, c := run[k].forest, run[k].chains[b];
    assert ChainOk(f, b, c);
    assert LinkedOk(f, b, c, i) && LinkedOk(f, b, c, j);
  }
}
