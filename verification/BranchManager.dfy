/** The branch manager: creates, forks, commits and drops revisions, and deletes branches. */
module BranchManager {
  import opened PageTree
  import opened TreeSteps
  import opened RevisionSteps
  import opened TreeWalk
  import opened Branches
  import opened PersistentStore

  /** Committed revisions that survive are still committed and read the same. */
  ghost predicate Evolves(f: Forest, f': Forest) {
    forall s :: s in f.known && s in f.revs && !f.revs[s].writable && s in f'.known && s in f'.revs ==>
      && f'.revs[s].brid == f.revs[s].brid && !f'.revs[s].writable
      && forall offset: nat :: Lookup(f', s, offset) == Lookup(f, s, offset)
  }

  /** The id of the next revision of a branch. */
  ghost function NextRevision(f: Forest, chain: seq<PagePtr>): nat {
    if |chain| > 0 && chain[0] in f.revs then f.revs[chain[0]].brid.revision + 1 else 1
  }

  ghost predicate NewestWritable(f: Forest, chain: seq<PagePtr>) {
    |chain| > 0 && chain[0] in f.revs && f.revs[chain[0]].writable
  }

  ghost function NewestLookup(f: Forest, chain: seq<PagePtr>, offset: nat): Leaf {
    if |chain| > 0 && chain[0] in f.revs then Lookup(f, chain[0], offset) else NULL_LEAF
  }

  /** What createRevision leaves of the revisions that were there: the newest one is closed, all else is as it was. */
  ghost function NewestClosed(f: Forest, chain: seq<PagePtr>): Forest {
    if |chain| > 0 && chain[0] in f.revs && f.revs[chain[0]].writable
    then Rewritten(f, chain[0], f.revs[chain[0]].(writable := false))
    else f
  }

  /** The one revision page that is new, in a tree that inherits the newest revision or starts with one blank page. */
  ghost predicate Added(f: Forest, f': Forest, chain: seq<PagePtr>, brid: BranchRevId, forceNoInherit: bool, r: PagePtr)
  {
    if |chain| > 0 && !forceNoInherit
    then chain[0] in f.revs && chain[0] in f.anc && f' == Inherited(f, r, chain[0], brid, chain[0])
    else exists p :: Fresh(f, p) && p != r && f' == Headed(f, r, brid, Head(chain), p)
  }

  /** Every page and revision page is still there, as it was. */
  ghost predicate StillThere(f: Forest, f': Forest) {
    && (forall p :: p in f.pages ==> p in f'.pages && f'.pages[p] == f.pages[p])
    && (forall s :: s in f.revs ==> s in f'.revs && f'.revs[s] == f.revs[s])
  }

  /** Only links between the revision pages of a chain are different. */
  ghost predicate Relinked(f: Forest, f': Forest, chain: seq<PagePtr>) {
    && f' == f.(revs := f'.revs) && f'.revs.Keys == f.revs.Keys
    && (forall s :: s in f.revs ==> f'.revs[s] == f.revs[s].(last := f'.revs[s].last))
    && (forall s :: s in f.revs && s !in chain ==> f'.revs[s] == f.revs[s])
  }

  lemma CutRelinks(f: Forest, b: nat, chain: seq<PagePtr>, n: nat, k: nat)
    requires ChainOk(f, b, chain) && n <= k <= |chain|
    ensures n > 0 ==> chain[n - 1] in f.revs
    ensures var (kept, last) := (chain[..n] + chain[k..], Head(chain[k..]));
            && Head(kept) == (if n > 0 then Head(chain) else last)
            && Relinked(f, if n > 0 then Rewritten(f, chain[n - 1], f.revs[chain[n - 1]].(last := last)) else f, kept)
  {
    hide ChainOk;
    if n > 0 {
      ScanFound(f, b, chain, n);
      assert (chain[..n] + chain[k..])[n - 1] == chain[n - 1];
    } else {
      assert chain[..0] + chain[k..] == chain[k..];
    }
  }

  lemma AddedStays(f: Forest, f': Forest, chain: seq<PagePtr>, brid: BranchRevId, forceNoInherit: bool, r: PagePtr)
    requires Added(f, f', chain, brid, forceNoInherit, r) && r !in f.revs
    ensures StillThere(f, f') && r in f'.revs && f'.revs[r].writable && f'.revs[r].brid == brid
  {
  }

  lemma FreshIsUnused(f: Forest, r: PagePtr)
    requires Inv(f) && Owners(f) && Fresh(f, r)
    ensures PagesOk(f) && AncOk(f) && Unused(f, r)
  {
  }

  /** The id of a revision that comes after `source` differs from all ids in its line. */
  lemma NextBrid(f: Forest, branches: map<nat, Branch>, source: PagePtr, brid: BranchRevId)
    requires AncOk(f) && LineageOk(f, branches) && source in f.known
    requires ComesAfter(branches, brid, f.revs[source].brid)
    ensures NewBrid(f, source, brid)
    ensures forall t :: t in f.anc[source] + {source} ==> t in f.known && ComesAfter(branches, brid, f.revs[t].brid)
  {
    AncestryBelow(branches, brid.branch);
    forall t | t in f.anc[source]
      ensures ComesAfter(branches, brid, f.revs[t].brid) && f.revs[t].brid != brid
    {
      assert Follows(f, branches, source, t);
      AncestryBelow(branches, f.revs[source].brid.branch);
      if f.revs[source].brid.branch != brid.branch {
        AncestryTransitive(branches, brid.branch, f.revs[source].brid.branch);
      }
    }
  }

  ghost predicate ComesAfter(branches: map<nat, Branch>, x: BranchRevId, y: BranchRevId) {
    (y.branch == x.branch && y.revision < x.revision) || y.branch in Ancestry(branches, x.branch)
  }

  /** A revision created after `source` inherits its mapping and follows its line. */
  lemma InheritArrives(f: Forest, branches: map<nat, Branch>, r: PagePtr, source: PagePtr, brid: BranchRevId,
      last: PagePtr)
    requires Inv(f) && f.loose == {} && Owners(f) && LineageOk(f, branches) && Fresh(f, r)
    requires source in f.known && source in f.revs && source in f.anc && !f.revs[source].writable
    requires ComesAfter(branches, brid, f.revs[source].brid)
    ensures var f' := Inherited(f, r, source, brid, last);
            && Inv(f') && Owners(f') && SameLookups(f, f') && Arrives(f, f', r)
            && (forall offset: nat :: Lookup(f', r, offset) == Lookup(f, source, offset))
            && (forall t :: t in f'.anc[r] ==> t in f.known && Follows(f', branches, r, t))
  {
    hide Inv, PagesOk, SameLookups, Lookup, LineageOk, ComesAfter, NewBrid;
    FreshIsUnused(f, r);
    NextBrid(f, branches, source, brid);
    InheritKeeps(f, r, source, brid, last);
    InheritFollows(f, branches, r, source, brid, last);
  }

  lemma InheritFollows(f: Forest, branches: map<nat, Branch>, r: PagePtr, source: PagePtr, brid: BranchRevId,
      last: PagePtr)
    requires AncOk(f) && Fresh(f, r) && source in f.known && source in f.revs && source in f.anc
    requires forall t :: t in f.anc[source] + {source} ==> t in f.known && ComesAfter(branches, brid, f.revs[t].brid)
    ensures var f' := Inherited(f, r, source, brid, last);
            forall t :: t in f'.anc[r] ==> t in f.known && Follows(f', branches, r, t)
  {
  }

  /** A head revision arrives with an empty mapping and follows nobody. */
  lemma HeadArrives(f: Forest, r: PagePtr, brid: BranchRevId, last: PagePtr, p: PagePtr)
    requires Inv(f) && f.loose == {} && Owners(f) && Fresh(f, r) && Fresh(f, p) && p != r
    ensures var f' := Headed(f, r, brid, last, p);
            && Inv(f') && Owners(f') && SameLookups(f, f') && Arrives(f, f', r) && f'.anc[r] == {}
            && (forall offset: nat :: Lookup(f', r, offset) == NULL_LEAF)
  {
    hide Inv, PagesOk, SameLookups, Lookup;
    FreshIsUnused(f, r);
    HeadKeeps(f, r, brid, last, p);
    HeadLookups(f, r, brid, last, p);
  }

  lemma ArrivalEvolves(f: Forest, f': Forest, r: PagePtr)
    requires SameLookups(f, f') && Arrives(f, f', r)
    ensures Evolves(f, f')
  {
  }

  lemma RewriteEvolves(f: Forest, r: PagePtr, v: Revision)
    requires Inv(f) && r in f.known && r in f.revs
    requires v == f.revs[r].(writable := v.writable, last := v.last) && (v.writable ==> f.revs[r].writable)
    ensures var f' := Rewritten(f, r, v);
            && Inv(f') && SameLookups(f, f') && Evolves(f, f') && (Owners(f) ==> Owners(f'))
            && f.known <= f.revs.Keys && (forall s :: s in f.known ==> s in f.anc && f.anc[s] <= f.known)
  {
    hide PagesOk, KidsOk, LinksOk, CountsOk, RootsOk, Lookup;
    RewriteKeeps(f, r, v);
  }

  lemma EvolvesCompose(f: Forest, g: Forest, h: Forest)
    requires Evolves(f, g) && Evolves(g, h)
    requires forall s :: s in f.known && s in h.known ==> s in g.known && s in g.revs
    ensures Evolves(f, h)
  {
    forall s | s in f.known && s in f.revs && !f.revs[s].writable && s in h.known && s in h.revs
      ensures h.revs[s].brid == f.revs[s].brid && !h.revs[s].writable
      ensures forall offset: nat :: Lookup(h, s, offset) == Lookup(f, s, offset)
    {
      assert forall offset: nat :: Lookup(g, s, offset) == Lookup(f, s, offset);
    }
  }

  class BranchManager {
    const store: PersistentStore
    var branches: map<nat, Branch>
    var nextBranchId: nat
    ghost var chains: map<nat, seq<PagePtr>>

    ghost predicate Valid()
      reads this, store
    {
      store.ValidTree() && BranchInv(store.F(), branches, chains, nextBranchId)
    }

    constructor ()
      ensures Valid() && branches == map[] && fresh(store)
    {
      store := new PersistentStore();
      branches, nextBranchId, chains := map[], 1, map[];
    }

    /** inheritRevisionPage: the root pointer is copied and marked stolen, nothing else. */
    method InheritRevisionPage(r: PagePtr, source: PagePtr, brid: BranchRevId, last: PagePtr)
      requires source in store.revs && source in store.anc
      modifies store
      ensures store.F() == Inherited(old(store.F()), r, source, brid, last)
    {
      var v := store.revs[source];
      store.revs := store.revs[r := Revision(brid, Ref(v.root.page, true), v.level, true, last, Counts(0, 0, 0))];
      store.anc := store.anc[r := store.anc[source] + {source}];
      store.known := store.known + {r};
    }

    /** formatHeadRevisionPage: a tree of one blank PageInfoPage. */
    method FormatHeadRevisionPage(r: PagePtr, brid: BranchRevId, last: PagePtr) returns (p: PagePtr)
      requires Fresh(store.F(), r)
      modifies store
      ensures Fresh(old(store.F()), p) && p != r
      ensures store.F() == Headed(old(store.F()), r, brid, last, p)
    {
      store.revs := store.revs[r := Revision(brid, NULL_REF, 0, true, last, Counts(0, 0, 0))];
      p := store.GetFreePagePtr();
      store.pages := store.pages[p := ZeroPage(1)];
      store.meta := store.meta[p := Meta(r, 1, 0, RootSlot)];
      store.revs := store.revs[r := Revision(brid, Ref(p, false), 1, true, last, Counts(0, 1, 0))];
      store.anc := store.anc[r := {}];
      store.known := store.known + {r};
    }

    /** createRevision; NullPage stands for the exception when the newest revision is writable. */
    method CreateRevision(b: nat, forceNoInherit: bool) returns (r: PagePtr)
      requires Valid() && b in branches
      modifies this, store
      ensures Valid() && Evolves(old(store.F()), store.F()) && nextBranchId == old(nextBranchId)
      ensures r == 0 <==> !forceNoInherit && old(NewestWritable(store.F(), chains[b]))
      ensures r == 0 ==> store.F() == old(store.F()) && branches == old(branches) && chains == old(chains)
      ensures r != 0 ==>
                && branches == old(branches[b := branches[b].(last := r)])
                && chains == old(chains[b := [r] + chains[b]])
                && r in store.revs && store.revs[r].writable
                && store.revs[r].brid == BranchRevId(b, old(NextRevision(store.F(), chains[b])))
                && store.known == old(store.known) + {r} && r !in old(store.known)
                && forall offset: nat :: Lookup(store.F(), r, offset)
                     == if forceNoInherit then NULL_LEAF else old(NewestLookup(store.F(), chains[b], offset))
      ensures r != 0 ==>
                && Added(old(NewestClosed(store.F(), chains[b])), store.F(), old(chains[b]), store.revs[r].brid,
                     forceNoInherit, r)
                && StillThere(old(NewestClosed(store.F(), chains[b])), store.F())
      ensures SameLookups(old(store.F()), store.F())
    {
      hide Inv, SameLookups, Evolves, LineageOk, Owners, Lookup, BranchesOk, Added, StillThere;
      ghost var f := store.F();
      var last := branches[b].last;
      ChainHead(f, b, chains[b]);
      if last != 0 && store.revs[last].writable {
        if !forceNoInherit {
          SameIsEvolved(f);
          return 0;
        }
        Freeze(last);
      } else {
        SameIsEvolved(f);
      }
      ghost var g := store.F();
      KnownInRevs(g);
      r := AddRevision(b, forceNoInherit);
      EvolvesCompose(f, g, store.F());
      LookupsCompose(f, g, store.F());
    }

    /** Clears the writable flag of a revision page. */
    method Freeze(r: PagePtr)
      requires Valid() && r in store.known && r in store.revs
      modifies store
      ensures Valid() && Evolves(old(store.F()), store.F()) && SameLookups(old(store.F()), store.F())
      ensures store.F() == Rewritten(old(store.F()), r, old(store.revs[r].(writable := false)))
    {
      hide Inv, SameLookups, Evolves, BranchInv, Owners;
      ghost var f := store.F();
      RewriteEvolves(f, r, f.revs[r].(writable := false));
      store.revs := store.revs[r := store.revs[r].(writable := false)];
      SameBranches(f, store.F(), branches, chains, nextBranchId);
    }

    method AddRevision(b: nat, forceNoInherit: bool) returns (r: PagePtr)
      requires Valid() && b in branches && !NewestWritable(store.F(), chains[b])
      modifies this, store
      ensures Valid() && Evolves(old(store.F()), store.F()) && nextBranchId == old(nextBranchId)
      ensures r != 0 && branches == old(branches[b := branches[b].(last := r)])
            && chains == old(chains[b := [r] + chains[b]])
      ensures r in store.revs && store.revs[r].writable
      ensures store.revs[r].brid == BranchRevId(b, old(NextRevision(store.F(), chains[b])))
      ensures store.known == old(store.known) + {r} && r !in old(store.known)
      ensures forall offset: nat :: Lookup(store.F(), r, offset)
                == if forceNoInherit then NULL_LEAF else old(NewestLookup(store.F(), chains[b], offset))
      ensures Added(old(store.F()), store.F(), old(chains[b]), store.revs[r].brid, forceNoInherit, r)
      ensures StillThere(old(store.F()), store.F()) && SameLookups(old(store.F()), store.F())
    {
      hide Inv, SameLookups, Evolves, LineageOk, Owners, Lookup, BranchesOk, StillThere;
      ghost var f := store.F();
      var last := branches[b].last;
      ChainHead(f, b, chains[b]);
      var revision := 1;
      if last != 0 {
        revision := store.revs[last].brid.revision + 1;
      }
      r := store.GetFreePagePtr();
      if last != 0 && !forceNoInherit {
        KnownHasAnc(f, last);
        InheritArrives(f, branches, r, last, BranchRevId(b, revision), last);
        InheritRevisionPage(r, last, BranchRevId(b, revision), last);
      } else {
        var p := FormatHeadRevisionPage(r, BranchRevId(b, revision), last);
        HeadArrives(f, r, BranchRevId(b, revision), last, p);
      }
      ArrivalEvolves(f, store.F(), r);
      AddedStays(f, store.F(), chains[b], BranchRevId(b, revision), forceNoInherit, r);
      NewRevisionKeeps(f, store.F(), branches, chains, nextBranchId, b, r);
      branches := branches[b := branches[b].(last := r)];
      chains := chains[b := [r] + chains[b]];
    }

    /** doCreateBranch, without names. */
    method CreateBranch(forkedFrom: BranchRevId) returns (b: nat)
      requires Valid() && (forkedFrom.branch == 0 || forkedFrom.branch in branches)
      modifies this
      ensures Valid() && b == old(nextBranchId) && b !in old(branches) && nextBranchId == b + 1
      ensures branches == old(branches)[b := Branch(forkedFrom, 0)] && chains == old(chains)[b := []]
    {
      hide Inv, LineageOk, Owners;
      NewBranchKeeps(store.F(), branches, chains, nextBranchId, forkedFrom);
      b := nextBranchId;
      branches := branches[b := Branch(forkedFrom, 0)];
      chains := chains[b := []];
      nextBranchId := nextBranchId + 1;
    }

    /** forkRevision: the first revision of a new branch inherits from a committed revision. */
    method ForkRevision(source: PagePtr) returns (r: PagePtr)
      requires Valid() && source in store.known && source in store.revs && !store.revs[source].writable
      modifies this, store
      ensures Valid() && Evolves(old(store.F()), store.F())
      ensures r != 0 && r in store.revs && store.revs[r].writable && store.known == old(store.known) + {r}
            && r !in old(store.known)
      ensures store.revs[r].brid == BranchRevId(old(nextBranchId), 1)
      ensures branches == old(branches)[old(nextBranchId) := Branch(old(store.revs[source].brid), r)]
      ensures chains == old(chains)[old(nextBranchId) := [r]]
      ensures forall offset: nat :: Lookup(store.F(), r, offset) == old(Lookup(store.F(), source, offset))
      ensures nextBranchId == old(nextBranchId) + 1
      ensures source in old(store.anc)
      ensures store.F() == Inherited(old(store.F()), r, source, BranchRevId(old(nextBranchId), 1), 0)
      ensures StillThere(old(store.F()), store.F()) && SameLookups(old(store.F()), store.F())
    {
      hide Inv, SameLookups, Evolves, Owners, Lookup, LineageOk, ChainsOk, BranchesOk, AncOk, ChainOk, LinkedOk;
      ghost var f := store.F();
      BranchOf(f, branches, nextBranchId, source);
      var b := CreateBranch(store.revs[source].brid);
      r := store.GetFreePagePtr();
      KnownHasAnc(f, source);
      ForkedAfter(branches, b, f.revs[source].brid);
      InheritArrives(f, branches, r, source, BranchRevId(b, 1), 0);
      InheritRevisionPage(r, source, BranchRevId(b, 1), 0);
      ArrivalEvolves(f, store.F(), r);
      NewRevisionKeeps(f, store.F(), branches, chains, nextBranchId, b, r);
      branches := branches[b := branches[b].(last := r)];
      chains := chains[b := [r] + chains[b]];
      assert [r] + [] == [r];
    }

    /** The step of commit that ends the writable state of a revision. */
    method Commit(r: PagePtr)
      requires Valid() && r in store.known && r in store.revs
      modifies store
      ensures Valid() && Evolves(old(store.F()), store.F()) && SameLookups(old(store.F()), store.F())
      ensures store.F() == Rewritten(old(store.F()), r, old(store.revs[r].(writable := false)))
    {
      if !store.revs[r].writable {
        SameIsEvolved(store.F());
        assert store.revs[r := store.revs[r].(writable := false)] == store.revs;
        return;
      }
      Freeze(r);
    }

    /** lookupRevision: 0 asks for the newest revision; NullPage stands for the exception. */
    method LookupRevision(b: nat, revisionId: nat) returns (r: PagePtr, id: nat)
      requires Valid() && b in branches
      ensures revisionId == 0 ==> r == Head(chains[b])
      ensures r != 0 ==>
            r in chains[b] && r in store.revs && id == store.revs[r].brid.revision
            && (revisionId != 0 ==> id == revisionId)
      ensures r == 0 && revisionId != 0 ==>
            forall x :: x in chains[b] ==> x in store.revs && store.revs[x].brid.revision != revisionId
    {
      hide Inv, LineageOk, Owners;
      ghost var chain := chains[b];
      ChainHead(store.F(), b, chain);
      if revisionId == 0 {
        r := branches[b].last;
        id := if r != 0 then store.revs[r].brid.revision else 0;
        return;
      }
      r := branches[b].last;
      ghost var k := 0;
      while r != 0
        invariant k <= |chain| && r == Head(chain[k..])
        invariant r == 0 ==> k == |chain|
        invariant forall j :: 0 <= j < k ==> chain[j] in store.revs && store.revs[chain[j]].brid.revision != revisionId
        decreases |chain| - k
      {
        HeadBehind(chain, k);
        assert LinkedOk(store.F(), b, chain, k);
        if store.revs[r].brid.revision == revisionId {
          return r, revisionId;
        }
        r := store.revs[r].last;
        k := k + 1;
        HeadBehind(chain, k);
        assert k < |chain| ==> LinkedOk(store.F(), b, chain, k);
      }
      id := 0;
    }

    /** The scan of dropRevisions: the last revision newer than the range, and the first one older. */
    method Scan(b: nat, from: nat, to: nat) returns (firstRev: PagePtr, lastRev: PagePtr, ghost n: nat, ghost k: nat)
      requires Valid() && b in branches
      ensures Scanned(store.F(), chains[b], from, to, n, k)
      ensures lastRev == (if n > 0 then chains[b][n - 1] else 0) && firstRev == Head(chains[b][k..])
      ensures k < |chains[b]| ==> chains[b][k] in store.revs && store.revs[chains[b][k]].brid.revision < from
    {
      hide Inv, LineageOk, Owners, ChainOk, LinkedOk, Head;
      ghost var f, chain := store.F(), chains[b];
      firstRev, lastRev, n, k := 0, 0, 0, 0;
      var r := branches[b].last;
      assert chain[0..] == chain;
      ChainAt(f, b, chain, 0);
      while r != 0
        invariant k <= |chain| && r == Head(chain[k..]) && (r == 0 ==> k == |chain|)
        invariant firstRev == 0 && Scanned(f, chain, from, to, n, k)
        invariant lastRev == if n > 0 then chain[n - 1] else 0
        decreases |chain| - k
      {
        ChainAt(f, b, chain, k);
        var id, nextRev := store.revs[r].brid.revision, store.revs[r].last;
        if to != 0 && id > to {
          StillNewer(f, b, chain, from, to, n, k);
          lastRev := r;
          n := k + 1;
        } else if from != 0 && id < from {
          firstRev := r;
          return;
        }
        r := nextRev;
        k := k + 1;
        ChainAt(f, b, chain, k);
      }
    }

    /** dropRevisions for a range: unlinks exactly the revisions in the range. */
    method DropRange(b: nat, from: nat, to: nat)
      requires Valid() && b in branches && (from != 0 || to != 0)
      modifies this, store
      ensures Valid() && Evolves(old(store.F()), store.F()) && SameLookups(old(store.F()), store.F())
      ensures chains == old(chains[b := Kept(store.F(), chains[b], from, to)]) && store.known == old(store.known)
      ensures branches == old(branches)[b := old(branches[b]).(last := Head(chains[b]))]
      ensures nextBranchId == old(nextBranchId)
      ensures Relinked(old(store.F()), store.F(), chains[b])
    {
      hide Inv, SameLookups, Owners, Evolves, BranchInv, ChainOk, Kept, Lookup, LinkedOk, Head, AncOk;
      ghost var f := store.F();
      BranchChain(f, branches, chains, nextBranchId, b);
      ghost var chain, branches0 := chains[b], branches;
      var firstRev, lastRev, n, k := Scan(b, from, to);
      ScanResult(f, b, chain, from, to, n, k);
      ScanFound(f, b, chain, n);
      if lastRev != 0 {
        RewriteEvolves(f, lastRev, f.revs[lastRev].(last := firstRev));
        store.revs := store.revs[lastRev := store.revs[lastRev].(last := firstRev)];
        assert store.F() == Rewritten(f, lastRev, f.revs[lastRev].(last := firstRev));
      } else {
        SameIsEvolved(f);
        branches := branches[b := branches[b].(last := firstRev)];
      }
      InvAnc(f);
      CutRelinks(f, b, chain, n, k);
      CutKeeps(f, store.F(), branches0, branches, chains, nextBranchId, b, n, k);
      chains := chains[b := chain[..n] + chain[k..]];
    }

    /** deleteBranch: dependants first, then the revisions of the branch, newest first. It frees exactly
        the pages owned by the revisions that the deleted branches link. */
    method DeleteBranch(b: nat)
      requires Valid() && b in branches
      modifies this, store
      ensures Valid() && nextBranchId == old(nextBranchId)
      ensures branches == old(branches) - Dependants(old(branches), b)
      ensures chains == old(chains) - Dependants(old(branches), b)
      ensures FreedExactly(old(store.F()), store.F(), Linked(old(chains), Dependants(old(branches), b)))
      ensures Evolves(old(store.F()), store.F())
      decreases nextBranchId - b
    {
      hide Inv, Owners, BranchInv, FreedExactly, Pruned, Evolves, Dependants, Linked;
      ghost var f, branches0, chains0, gone := store.F(), branches, chains, {};
      BranchMaps(f, branches, chains, nextBranchId);
      PrunedNone(f, branches, chains, b);
      while exists x :: x in branches && branches[x].forkedFrom.branch == b
        invariant Valid() && nextBranchId == old(nextBranchId) && b in branches
        invariant branches == branches0 - gone && chains == chains0 - gone && Pruned(branches0, b, gone)
        invariant FreedExactly(f, store.F(), Linked(chains0, gone))
        decreases |branches|
      {
        var c :| c in branches && branches[c].forkedFrom.branch == b;
        gone := DeleteDependant(b, c, f, branches0, chains0, gone);
      }
      PrunedAll(branches0, nextBranchId, b, gone);
      DeleteLast(b, f, chains0, gone);
      FreedEvolves(f, store.F(), Linked(chains0, gone + {b}));
    }

    /** One round of the loop over the branches forked from b. */
    method DeleteDependant(b: nat, c: nat, ghost f: Forest, ghost branches0: map<nat, Branch>,
        ghost chains0: map<nat, seq<PagePtr>>, ghost gone: set<nat>) returns (ghost gone': set<nat>)
      requires Valid() && b in branches && c in branches && branches[c].forkedFrom.branch == b
      requires branches == branches0 - gone && chains == chains0 - gone && Pruned(branches0, b, gone)
      requires BranchesOk(branches0, nextBranchId) && Inv(f) && FreedExactly(f, store.F(), Linked(chains0, gone))
      modifies this, store
      ensures Valid() && nextBranchId == old(nextBranchId) && b in branches && |branches| < old(|branches|)
      ensures branches == branches0 - gone' && chains == chains0 - gone' && Pruned(branches0, b, gone')
      ensures FreedExactly(f, store.F(), Linked(chains0, gone'))
      decreases nextBranchId - b, 0
    {
      hide Inv, Owners, BranchInv, BranchesOk, FreedExactly, Evolves, Linked;
      ghost var g, rest := store.F(), branches;
      ghost var more := Dependants(branches, c);
      PruneMore(branches0, nextBranchId, b, gone, c);
      DeleteBranch(c);
      gone' := gone + more;
      FreedAlso(f, g, store.F(), chains0, gone, more);
      assert branches == branches0 - gone' && chains == chains0 - gone';
      FewerBranches(rest, more, c);
    }

    /** The end of deleteBranch, when nothing is forked from b any more. */
    method DeleteLast(b: nat, ghost f: Forest, ghost chains0: map<nat, seq<PagePtr>>, ghost gone: set<nat>)
      requires Valid() && b in branches && b !in gone
            && forall x :: x in branches ==> branches[x].forkedFrom.branch != b
      requires chains == chains0 - gone && Inv(f) && FreedExactly(f, store.F(), Linked(chains0, gone))
      modifies this, store
      ensures Valid() && nextBranchId == old(nextBranchId)
      ensures branches == old(branches) - {b} && chains == chains0 - (gone + {b})
      ensures FreedExactly(f, store.F(), Linked(chains0, gone + {b}))
    {
      hide Inv, Owners, BranchInv, FreedExactly, Linked, Forgotten, Needed;
      BranchMaps(store.F(), branches, chains, nextBranchId);
      ghost var g := store.F();
      LinkedOne(chains, b);
      DropAllRevisions(b);
      ghost var h := store.F();
      RemoveBranch(h, branches, chains, nextBranchId, b);
      store.known := Needed(h, chains);
      ForgottenForest(h, store.F(), chains);
      FreedNoMore(g, h, store.F(), Linked(chains0 - gone, {b}));
      branches := branches - {b};
      chains := chains - {b};
      FreedAlso(f, g, store.F(), chains0, gone, {b});
    }

    /** One round of dropRevisions for a whole branch: frees what the newest revision r owns.
        `linked` are the branches with b's list starting at r. */
    method DropRevision(b: nat, r: PagePtr, ghost linked: map<nat, Branch>) returns (nextRev: PagePtr)
      requires store.ValidTree() && BranchInv(store.F(), linked, chains, nextBranchId) && b in linked
      requires |chains[b]| > 0 && r == chains[b][0] && forall x :: x in linked ==> linked[x].forkedFrom.branch != b
      modifies store, this`chains
      ensures store.ValidTree() && chains == old(chains[b := chains[b][1..]])
      ensures nextRev == Head(chains[b])
      ensures BranchInv(store.F(), linked[b := linked[b].(last := nextRev)], chains, nextBranchId)
      ensures FreedExactly(old(store.F()), store.F(), {r})
    {
      hide Inv, SameLookups, Owners, BranchInv, FreedExactly, Needed;
      ghost var f := store.F();
      ForgetStep(f, linked, chains, nextBranchId, b);
      BranchChain(f, linked, chains, nextBranchId, b);
      FirstLink(f, b, chains[b]);
      nextRev := store.revs[r].last;
      store.known := Needed(f, chains);
      ghost var g := store.F();
      ForgottenOwners(f, g);
      store.DropAllPages(r);
      FreedOne(f, g, g.known - {r}, r);
      KnownInRevs(g);
      DropNewest(g, store.F(), linked, chains, nextBranchId, b);
      chains := chains[b := chains[b][1..]];
    }

    /** dropRevisions(0, 0): frees every revision of a branch that nothing was forked from. */
    method DropAllRevisions(b: nat)
      requires Valid() && b in branches && forall x :: x in branches ==> branches[x].forkedFrom.branch != b
      modifies this, store
      ensures Valid() && nextBranchId == old(nextBranchId)
      ensures branches == old(branches[b := branches[b].(last := 0)]) && chains == old(chains[b := []])
      ensures FreedExactly(old(store.F()), store.F(), Items(old(chains[b])))
    {
      hide Inv, SameLookups, Owners, BranchInv, FreedExactly;
      ghost var f := store.F();
      BranchChain(f, branches, chains, nextBranchId, b);
      ghost var chain := chains[b];
      var r := branches[b].last;
      ghost var k := 0;
      NothingFreed(f);
      assert Items(chain[..0]) == {};
      assert branches[b := branches[b].(last := r)] == branches;
      while r != 0
        invariant store.ValidTree() && k <= |chain| && chains == old(chains)[b := chain[k..]]
        invariant branches == old(branches) && nextBranchId == old(nextBranchId) && r == Head(chain[k..])
        invariant BranchInv(store.F(), branches[b := branches[b].(last := r)], chains, nextBranchId)
        invariant FreedExactly(f, store.F(), Items(chain[..k]))
        decreases |chain| - k
      {
        ghost var g, linked := store.F(), branches[b := branches[b].(last := r)];
        HeadBehind(chain, k);
        r := DropRevision(b, r, linked);
        assert linked[b := linked[b].(last := r)] == branches[b := branches[b].(last := r)];
        FreedMore(f, g, store.F(), chain, k);
        k := k + 1;
      }
      BranchChain(store.F(), branches[b := branches[b].(last := r)], chains, nextBranchId, b);
      ChainHead(store.F(), b, chain[k..]);
      assert chain[..k] == chain;
      branches := branches[b := branches[b].(last := 0)];
    }
  }

  lemma FreedEvolves(f: Forest, g: Forest, rs: set<PagePtr>)
    requires FreedExactly(f, g, rs)
    ensures Evolves(f, g)
  {
    forall s, offset: nat | s in f.known && s in f.revs && s in g.known && s in g.revs
      ensures Lookup(g, s, offset) == Lookup(f, s, offset)
    {
    }
  }

  lemma FreedAlso(f: Forest, g: Forest, h: Forest, chains: map<nat, seq<PagePtr>>, gone: set<nat>, more: set<nat>)
    requires FreedExactly(f, g, Linked(chains, gone)) && FreedExactly(g, h, Linked(chains - gone, more)) && more !! gone
    requires Inv(f) && Inv(g) && Inv(h)
    ensures FreedExactly(f, h, Linked(chains, gone + more))
  {
    hide FreedExactly, Inv;
    InvPages(f);
    InvPages(g);
    KnownInRevs(g);
    KnownInRevs(h);
    FreedCompose(f, g, h, Linked(chains, gone), Linked(chains - gone, more));
    LinkedSplit(chains, gone, more);
  }

  /** The revision page at the current end of a walk down the chain. */
  lemma ChainAt(f: Forest, b: nat, chain: seq<PagePtr>, k: nat)
    requires ChainOk(f, b, chain) && k <= |chain|
    ensures Head(chain[k..]) == 0 <==> k == |chain|
    ensures k < |chain| ==>
              && Head(chain[k..]) == chain[k] && chain[k] in f.revs && chain[k] in f.known
              && f.revs[chain[k]].last == Head(chain[k + 1..])
  {
    assert k < |chain| ==> LinkedOk(f, b, chain, k);
  }

  lemma BranchMaps(f: Forest, branches: map<nat, Branch>, chains: map<nat, seq<PagePtr>>, next: nat)
    requires BranchInv(f, branches, chains, next)
    ensures BranchesOk(branches, next) && chains.Keys == branches.Keys
  {
  }

  lemma PrunedNone(f: Forest, branches: map<nat, Branch>, chains: map<nat, seq<PagePtr>>, b: nat)
    ensures Pruned(branches, b, {}) && branches - {} == branches && chains - {} == chains
    ensures FreedExactly(f, f, Linked(chains, {}))
  {
    assert Linked(chains, {}) == {};
    NothingFreed(f);
  }

  lemma FewerBranches(branches: map<nat, Branch>, gone: set<nat>, c: nat)
    requires c in branches && c in gone
    ensures |branches - gone| < |branches|
  {
    var rest := branches - gone;
    assert |rest| == |rest.Keys| && |branches| == |branches.Keys|;
    assert rest.Keys <= branches.Keys - {c};
    SubsetSize(rest.Keys, branches.Keys - {c});
  }

  lemma {:induction false} SubsetSize(a: set<nat>, b: set<nat>)
    requires a <= b
    ensures |a| <= |b|
  {
    if a != {} {
      var x :| x in a;
      SubsetSize(a - {x}, b - {x});
    }
  }

  lemma ForgottenForest(h: Forest, g: Forest, chains: map<nat, seq<PagePtr>>)
    requires g == h.(known := Needed(h, chains)) && Owners(h) && Inv(h)
    ensures g == Forgotten(h, chains) && Owners(g)
  {
    NeededClosed(h, chains);
  }

  lemma FreedNoMore(f: Forest, g: Forest, h: Forest, rs: set<PagePtr>)
    requires FreedExactly(f, g, rs) && FreedExactly(g, h, {}) && Inv(f) && Inv(g) && Inv(h)
    ensures FreedExactly(f, h, rs)
  {
    hide FreedExactly;
    InvPages(f);
    InvPages(g);
    KnownInRevs(g);
    KnownInRevs(h);
    FreedCompose(f, g, h, rs, {});
    assert rs + {} == rs;
  }

  lemma FirstLink(f: Forest, b: nat, chain: seq<PagePtr>)
    requires ChainOk(f, b, chain) && |chain| > 0
    ensures chain[0] in f.revs && f.revs[chain[0]].last == Head(chain[1..])
  {
    assert LinkedOk(f, b, chain, 0);
  }

  lemma ForgottenOwners(f: Forest, g: Forest)
    requires Inv(f) && Owners(f) && g == f.(known := g.known) && g.known <= f.known
    ensures Owners(g)
  {
  }

  lemma FreedMore(f: Forest, g: Forest, h: Forest, chain: seq<PagePtr>, k: nat)
    requires k < |chain| && FreedExactly(f, g, Items(chain[..k])) && FreedExactly(g, h, {chain[k]})
    requires Inv(f) && Inv(g) && Inv(h)
    ensures FreedExactly(f, h, Items(chain[..k + 1]))
  {
    hide FreedExactly;
    InvPages(f);
    InvPages(g);
    KnownInRevs(g);
    KnownInRevs(h);
    FreedCompose(f, g, h, Items(chain[..k]), {chain[k]});
    assert chain[..k + 1] == chain[..k] + [chain[k]];
    assert Items(chain[..k + 1]) == Items(chain[..k]) + {chain[k]};
  }

  lemma BranchOf(f: Forest, branches: map<nat, Branch>, next: nat, s: PagePtr)
    requires LineageOk(f, branches) && BranchesOk(branches, next) && s in f.known && s in f.revs
    ensures f.revs[s].brid.branch in branches && 0 < f.revs[s].brid.branch < next
  {
  }

  /** The first revision of a forked branch comes after the revision it was forked from. */
  lemma ForkedAfter(branches: map<nat, Branch>, b: nat, brid: BranchRevId)
    requires b in branches && branches[b].forkedFrom == brid && 0 < brid.branch < b
    ensures ComesAfter(branches, BranchRevId(b, 1), brid)
  {
  }

  /** A revision newer than the range is only met before the range. */
  lemma StillNewer(f: Forest, b: nat, chain: seq<PagePtr>, from: nat, to: nat, n: nat, k: nat)
    requires ChainOk(f, b, chain) && Scanned(f, chain, from, to, n, k) && k < |chain|
    requires to != 0 && chain[k] in f.revs && f.revs[chain[k]].brid.revision > to
    ensures Scanned(f, chain, from, to, k + 1, k + 1)
  {
    NothingInRangeYet(f, b, chain, from, to, n, k);
  }

  lemma NothingInRangeYet(f: Forest, b: nat, chain: seq<PagePtr>, from: nat, to: nat, n: nat, k: nat)
    requires ChainOk(f, b, chain) && Scanned(f, chain, from, to, n, k) && n <= k < |chain|
    requires to != 0 && chain[k] in f.revs && f.revs[chain[k]].brid.revision > to
    ensures n == k
  {
    hide Scanned, ChainOk;
    if n < k {
      NewerBefore(f, b, chain, n, k);
      ScannedAt(f, chain, from, to, n, k);
      assert false;
    }
  }

  lemma NewerBefore(f: Forest, b: nat, chain: seq<PagePtr>, j: nat, k: nat)
    requires ChainOk(f, b, chain) && j < k < |chain|
    ensures chain[j] in f.revs && chain[k] in f.revs && f.revs[chain[j]].brid.revision > f.revs[chain[k]].brid.revision
  {
    assert LinkedOk(f, b, chain, j) && LinkedOk(f, b, chain, k);
  }

  lemma ScannedAt(f: Forest, chain: seq<PagePtr>, from: nat, to: nat, n: nat, k: nat)
    requires Scanned(f, chain, from, to, n, k) && n < k && to != 0
    ensures chain[n] in f.revs && f.revs[chain[n]].brid.revision <= to
  {
  }

  lemma KnownInRevs(f: Forest)
    requires Inv(f)
    ensures f.known <= f.revs.Keys
  {
  }

  lemma ChainHead(f: Forest, b: nat, chain: seq<PagePtr>)
    requires ChainOk(f, b, chain)
    ensures Head(chain) == 0 <==> chain == []
    ensures chain != [] ==> chain[0] in f.known && chain[0] in f.revs && f.revs[chain[0]].brid.branch == b
  {
    if chain != [] {
      assert LinkedOk(f, b, chain, 0);
    }
  }

  lemma KnownHasAnc(f: Forest, r: PagePtr)
    requires Inv(f) && r in f.known
    ensures r in f.anc && r in f.revs
  {
  }

  lemma InvAnc(f: Forest)
    requires Inv(f)
    ensures AncOk(f)
  {
  }

  lemma BranchChain(f: Forest, branches: map<nat, Branch>, chains: map<nat, seq<PagePtr>>, next: nat, b: nat)
    requires BranchInv(f, branches, chains, next) && b in branches
    ensures b in chains && ChainOk(f, b, chains[b]) && branches[b].last == Head(chains[b])
          && chains.Keys == branches.Keys
  {
  }

  lemma ScanFound(f: Forest, b: nat, chain: seq<PagePtr>, n: nat)
    requires ChainOk(f, b, chain) && n <= |chain|
    ensures n > 0 ==> chain[n - 1] != 0 && chain[n - 1] in f.known && chain[n - 1] in f.revs
  {
    if n > 0 {
      assert LinkedOk(f, b, chain, n - 1);
    }
  }

  lemma SameIsEvolved(f: Forest)
    ensures Evolves(f, f) && SameLookups(f, f)
  {
  }
}
