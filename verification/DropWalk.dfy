/** Which pages a walk over the indirection tree finds: exactly the pages that the
    revision allocated, each at one place. */
module DropWalk {
  import opened Radix
  import opened PageTree
  import opened TreeSteps
  import opened RevisionSteps
  import opened TreeWalk

  ghost predicate OwnKid(f: Forest, p: PagePtr, i: nat)
    requires PagesOk(f) && p in f.pages
  {
    var c := Kid(f.pages[p], i);
    c != 0 && c in f.pages && f.meta[c].owner == f.meta[p].owner && f.meta[c].level < f.meta[p].level
  }

  /** The owned pages strictly below the first n slots of p. */
  ghost function Under(f: Forest, p: PagePtr, n: nat): set<PagePtr>
    requires PagesOk(f) && p in f.pages
    decreases f.meta[p].level, n
  {
    if n == 0 then {}
    else
      var c := Kid(f.pages[p], n - 1);
      Under(f, p, n - 1) + if OwnKid(f, p, n - 1) then {c} + Under(f, c, Fanout(f.meta[c].level)) else {}
  }

  ghost predicate Within(f: Forest, x: PagePtr, r: PagePtr, level: nat, low: nat, high: nat)
    requires PagesOk(f)
  {
    x in f.pages && f.meta[x].owner == r && f.meta[x].level < level && low <= f.meta[x].base < high
  }

  /** Pages below different slots cover different relative pages. */
  lemma {:induction false} UnderRange(f: Forest, p: PagePtr, n: nat)
    requires PagesOk(f) && KidsOk(f) && p in f.pages && f.meta[p].owner in f.known && n <= Fanout(f.meta[p].level)
    ensures f.meta[p].level >= 1 || n == 0
    ensures forall x :: x in Under(f, p, n) ==>
              Within(f, x, f.meta[p].owner, f.meta[p].level, f.meta[p].base,
                     f.meta[p].base + if n == 0 then 0 else n * Covered(f.meta[p].level - 1))
    decreases f.meta[p].level, n
  {
    if n > 0 {
      var m := f.meta[p];
      var a := Covered(m.level - 1);
      UnderRange(f, p, n - 1);
      assert n * a == (n - 1) * a + a;
      MulMono(0, n - 1, a);
      if OwnKid(f, p, n - 1) {
        var c := Kid(f.pages[p], n - 1);
        assert KidOk(f, p, n - 1);
        UnderRange(f, c, Fanout(f.meta[c].level));
        assert f.meta[c].level >= 1 ==> Fanout(m.level - 1) * Covered(m.level - 2) == a;
      }
    }
  }

  lemma {:induction false} UnderGrows(f: Forest, p: PagePtr, n: nat, k: nat)
    requires PagesOk(f) && p in f.pages && n <= k
    ensures Under(f, p, n) <= Under(f, p, k)
    decreases k - n
  {
    if n < k {
      UnderGrows(f, p, n, k - 1);
    }
  }

  /** Below a page below p is below p. */
  lemma {:induction false} UnderTransitive(f: Forest, p: PagePtr, n: nat, q: PagePtr)
    requires PagesOk(f) && p in f.pages && q in f.pages && q in Under(f, p, n)
    ensures Under(f, q, Fanout(f.meta[q].level)) <= Under(f, p, n)
    decreases f.meta[p].level, n
  {
    if q in Under(f, p, n - 1) {
      UnderTransitive(f, p, n - 1, q);
    } else {
      var c := Kid(f.pages[p], n - 1);
      if q != c {
        UnderTransitive(f, c, Fanout(f.meta[c].level), q);
      }
    }
  }

  lemma KidUnder(f: Forest, q: PagePtr, i: nat)
    requires PagesOk(f) && q in f.pages && i < Fanout(f.meta[q].level) && OwnKid(f, q, i)
    ensures Kid(f.pages[q], i) in Under(f, q, Fanout(f.meta[q].level))
  {
    UnderGrows(f, q, i + 1, Fanout(f.meta[q].level));
  }

  /** Every page a revision owns is its root or below its root. */
  lemma {:induction false} OwnedIsReached(f: Forest, r: PagePtr, x: PagePtr)
    requires Inv(f) && f.loose == {} && r in f.known && r in f.revs && x in f.pages && f.meta[x].owner == r
    ensures !f.revs[r].root.stolen
    ensures x == f.revs[r].root.page || x in Under(f, f.revs[r].root.page, Fanout(f.revs[r].level))
    decreases f.revs[r].level - f.meta[x].level
  {
    assert RootOk(f, r);
    assert LinkOk(f, x);
    match f.meta[x].up
    case RootSlot =>
    case ChildSlot(q, i) =>
      assert KidOk(f, q, i);
      assert LinkOk(f, q);
      assert i < Fanout(f.meta[q].level);
      OwnedIsReached(f, r, q);
      KidUnder(f, q, i);
      if q != f.revs[r].root.page {
        UnderTransitive(f, f.revs[r].root.page, Fanout(f.revs[r].level), q);
      }
  }

  /** The pages that the walk of a revision collects are exactly the ones it owns. */
  lemma OwnedIsUnderRoot(f: Forest, r: PagePtr)
    requires Inv(f) && f.loose == {} && r in f.known && r in f.revs
    ensures RootOk(f, r)
    ensures Owned(f, r) == if f.revs[r].root.stolen then {}
                           else {f.revs[r].root.page} + Under(f, f.revs[r].root.page, Fanout(f.revs[r].level))
  {
    var p := f.revs[r].root.page;
    assert RootOk(f, r);
    forall x | x in Owned(f, r)
      ensures !f.revs[r].root.stolen && (x == p || x in Under(f, p, Fanout(f.revs[r].level)))
    {
      OwnedIsReached(f, r, x);
    }
    if !f.revs[r].root.stolen {
      UnderRange(f, p, Fanout(f.revs[r].level));
    }
  }

  // ----- the state of a walk in progress -----

  ghost function OfKind(f: Forest, d: set<PagePtr>, kind: nat): set<PagePtr> {
    set x | x in d && x in f.meta && Kind(f.meta[x].level) == kind
  }

  /** The counters are the numbers of collected pages, by type: each page was counted once. */
  ghost predicate Tally(f: Forest, d: set<PagePtr>, c: Counts) {
    && d <= f.pages.Keys
    && c == Counts(|OfKind(f, d, 0)|, |OfKind(f, d, 1)|, |OfKind(f, d, 2)|)
  }

  lemma TallyAdd(f: Forest, d: set<PagePtr>, c: Counts, p: PagePtr)
    requires Tally(f, d, c) && p in f.pages && p in f.meta && p !in d
    ensures Tally(f, d + {p}, Bump(c, f.meta[p].level))
  {
    hide OfKind;
    KindAdd(f, d, p, 0);
    KindAdd(f, d, p, 1);
    KindAdd(f, d, p, 2);
  }

  lemma KindAdd(f: Forest, d: set<PagePtr>, p: PagePtr, kind: nat)
    requires p in f.meta && p !in d
    ensures |OfKind(f, d + {p}, kind)| == |OfKind(f, d, kind)| + if Kind(f.meta[p].level) == kind then 1 else 0
  {
    if Kind(f.meta[p].level) == kind {
      assert OfKind(f, d + {p}, kind) == OfKind(f, d, kind) + {p};
    } else {
      assert OfKind(f, d + {p}, kind) == OfKind(f, d, kind);
    }
  }

  /** All collected pages lie before this relative page. */
  ghost predicate Before(f: Forest, d: set<PagePtr>, base: nat) {
    forall x :: x in d && x in f.meta ==> f.meta[x].base < base
  }

  /** A walk on behalf of rev stands at p: on an unstolen path p is a page of rev, on
      a stolen one nothing of rev lies below. */
  ghost predicate DropSite(f: Forest, rev: PagePtr, p: PagePtr, stolen: bool) {
    && rev in f.known && rev in f.revs && f.loose == {}
    && p in f.pages && p in f.meta && f.meta[p].owner in f.known && f.meta[p].owner in f.anc
    && (if stolen then rev != f.meta[p].owner && rev !in f.anc[f.meta[p].owner] else f.meta[p].owner == rev)
    && Inv(f)
  }

  /** What the first n slots of p contribute. */
  ghost function Harvest(f: Forest, p: PagePtr, n: nat, stolen: bool): set<PagePtr>
    requires PagesOk(f) && p in f.pages
  {
    if stolen then {} else Under(f, p, n)
  }

  ghost predicate Takes(info: PageInfo, rev: Revision, stolen: bool) {
    info.page != 0 && info.brid == rev.brid && !stolen
  }

  /** Slot i of a PageInfoPage: the entry carries the revision id of rev exactly when the
      segment page belongs to rev, and only on an unstolen path. */
  lemma InfoSlot(f: Forest, rev: PagePtr, p: PagePtr, i: nat, stolen: bool)
    requires DropSite(f, rev, p, stolen) && f.meta[p].level == 1 && f.pages[p].InfoPage? && i < |f.pages[p].infos|
    ensures Takes(f.pages[p].infos[i], f.revs[rev], stolen) ==> OwnKid(f, p, i)
    ensures Harvest(f, p, i + 1, stolen)
         == Harvest(f, p, i, stolen) + if Takes(f.pages[p].infos[i], f.revs[rev], stolen)
             then {f.pages[p].infos[i].page} else {}
  {
    var c := Kid(f.pages[p], i);
    if c != 0 {
      assert KidOk(f, p, i);
      if !stolen && OwnKid(f, p, i) {
        assert Under(f, c, Fanout(f.meta[c].level)) == {};
      }
    }
  }

  lemma TallyOne(f: Forest, start: set<PagePtr>, d: set<PagePtr>, c: Counts, p: PagePtr, i: nat, stolen: bool)
    requires Inv(f) && p in f.pages && f.meta[p].owner in f.known && i < Fanout(f.meta[p].level) && Tally(f, d, c)
    requires d == start + Harvest(f, p, i, stolen)
    requires !stolen ==> Before(f, start, f.meta[p].base) && OwnKid(f, p, i)
    ensures !stolen ==>
          Kid(f.pages[p], i) !in d && Tally(f, d + {Kid(f.pages[p], i)}, Bump(c, f.meta[Kid(f.pages[p], i)].level))
  {
    hide Covered, Tally, KidsOk, Kid;
    if !stolen {
      NewToWalk(f, start, p, i);
      TallyAdd(f, d, c, Kid(f.pages[p], i));
    }
  }

  /** The page at an own slot is neither below an earlier slot nor before page p. */
  lemma NewToWalk(f: Forest, start: set<PagePtr>, p: PagePtr, i: nat)
    requires Inv(f) && p in f.pages && f.meta[p].owner in f.known && i < Fanout(f.meta[p].level)
    requires Before(f, start, f.meta[p].base) && OwnKid(f, p, i)
    ensures Kid(f.pages[p], i) !in start && Kid(f.pages[p], i) !in Under(f, p, i)
    ensures Kid(f.pages[p], i) in f.pages
  {
    hide Under, Covered, Before, KidsOk, LinksOk, RootsOk, CountsOk, AncOk, Shape;
    KidBase(f, p, i);
    KidAhead(f, p, i);
    UnderRange(f, p, i);
    NotBefore(f, start, f.meta[p].base, Kid(f.pages[p], i));
  }

  /** A child covers nothing before its father's range. */
  lemma KidAhead(f: Forest, p: PagePtr, i: nat)
    requires Inv(f) && p in f.pages && f.meta[p].owner in f.known && i < Fanout(f.meta[p].level) && OwnKid(f, p, i)
    ensures var c := Kid(f.pages[p], i); c in f.pages && c in f.meta && f.meta[p].base <= f.meta[c].base
  {
    hide Covered, KidsOk, LinksOk, RootsOk, CountsOk, AncOk, Shape;
    KidBase(f, p, i);
    MulMono(0, i, Covered(f.meta[p].level - 1));
  }

  lemma NotBefore(f: Forest, start: set<PagePtr>, base: nat, x: PagePtr)
    requires Before(f, start, base) && x in f.meta && f.meta[x].base >= base
    ensures x !in start
  {
  }

  /** Slot i of an IndirectionPage: where the walk goes on. */
  lemma ChildSlotSite(f: Forest, rev: PagePtr, p: PagePtr, i: nat, stolen: bool)
    requires DropSite(f, rev, p, stolen) && f.pages[p].IndirectionPage? && i < |f.pages[p].refs|
    requires f.pages[p].refs[i].page != 0
    ensures DropSite(f, rev, f.pages[p].refs[i].page, stolen || f.pages[p].refs[i].stolen)
    ensures f.meta[f.pages[p].refs[i].page].level == f.meta[p].level - 1
    ensures !stolen ==> (f.pages[p].refs[i].stolen <==> !OwnKid(f, p, i))
  {
    assert Kid(f.pages[p], i) == f.pages[p].refs[i].page;
    assert KidOk(f, p, i);
  }

  /** What has been collected before an own slot lies before the page at that slot. */
  lemma BeforeSlot(f: Forest, p: PagePtr, i: nat, start: set<PagePtr>)
    requires Inv(f) && p in f.pages && f.meta[p].owner in f.known && i < Fanout(f.meta[p].level) && OwnKid(f, p, i)
    requires Before(f, start, f.meta[p].base)
    ensures Before(f, start + Under(f, p, i), f.meta[Kid(f.pages[p], i)].base)
  {
    hide Under, Covered, KidsOk, LinksOk, RootsOk, CountsOk, AncOk, Shape;
    KidBase(f, p, i);
    UnderRange(f, p, i);
    MulMono(0, i, Covered(f.meta[p].level - 1));
  }

  lemma KidBase(f: Forest, p: PagePtr, i: nat)
    requires Inv(f) && p in f.pages && f.meta[p].owner in f.known && OwnKid(f, p, i)
    ensures f.meta[p].level >= 1
    ensures f.meta[Kid(f.pages[p], i)].base == f.meta[p].base + i * Covered(f.meta[p].level - 1)
  {
    hide Covered, LinksOk, CountsOk, RootsOk;
    assert KidOk(f, p, i);
  }

  /** After everything below slot i, the page at slot i itself is new to the walk. */
  lemma TallyChild(f: Forest, start: set<PagePtr>, d: set<PagePtr>, c: Counts, p: PagePtr, i: nat)
    requires Inv(f) && p in f.pages && f.meta[p].owner in f.known && i < Fanout(f.meta[p].level) && Tally(f, d, c)
          && OwnKid(f, p, i)
    requires Kid(f.pages[p], i) in f.pages && f.meta[Kid(f.pages[p], i)].owner in f.known
    requires d == start + Under(f, p, i) + Under(f, Kid(f.pages[p], i), Fanout(f.meta[Kid(f.pages[p], i)].level))
    requires Before(f, start + Under(f, p, i), f.meta[Kid(f.pages[p], i)].base)
    ensures Kid(f.pages[p], i) !in d
    ensures Tally(f, d + {Kid(f.pages[p], i)}, Bump(c, f.meta[Kid(f.pages[p], i)].level))
    ensures d + {Kid(f.pages[p], i)} == start + Under(f, p, i + 1)
  {
    var k := Kid(f.pages[p], i);
    UnderRange(f, k, Fanout(f.meta[k].level));
    assert k !in d;
    TallyAdd(f, d, c, k);
  }

  lemma EmptySlot(f: Forest, p: PagePtr, i: nat, stolen: bool)
    requires PagesOk(f) && p in f.pages && Kid(f.pages[p], i) == 0
    ensures Harvest(f, p, i + 1, stolen) == Harvest(f, p, i, stolen)
  {
  }

  // ----- the whole walk -----

  lemma SiteShape(f: Forest, rev: PagePtr, p: PagePtr, stolen: bool)
    requires DropSite(f, rev, p, stolen)
    ensures PagesOk(f) && p in f.pages && p in f.meta && Shape(f.pages[p], f.meta[p].level)
  {
  }

  lemma RootSite(f: Forest, rev: PagePtr)
    requires Inv(f) && f.loose == {} && rev in f.known && rev in f.revs
    ensures DropSite(f, rev, f.revs[rev].root.page, f.revs[rev].root.stolen)
    ensures Tally(f, {}, Counts(0, 0, 0)) && Before(f, {}, f.meta[f.revs[rev].root.page].base)
  {
    assert RootOk(f, rev);
    assert OfKind(f, {}, 0) == {} && OfKind(f, {}, 1) == {} && OfKind(f, {}, 2) == {};
  }

  /** At the end of the walk only the root itself is missing. */
  lemma RootTally(f: Forest, rev: PagePtr, d: set<PagePtr>, c: Counts)
    requires AtRoot(f, rev) && Tally(f, d, c)
    requires d == Harvest(f, f.revs[rev].root.page, Fanout(f.revs[rev].level), f.revs[rev].root.stolen)
    ensures f.revs[rev].root.stolen ==> d == Owned(f, rev)
    ensures !f.revs[rev].root.stolen ==>
              var p := f.revs[rev].root.page; d + {p} == Owned(f, rev) && Tally(f, d + {p}, Bump(c, f.revs[rev].level))
  {
    OwnedIsUnderRoot(f, rev);
    if !f.revs[rev].root.stolen {
      UnderRange(f, f.revs[rev].root.page, Fanout(f.revs[rev].level));
      TallyAdd(f, d, c, f.revs[rev].root.page);
    }
  }

  /** Counting the owned pages gives the owned-page counters. */
  lemma OwnedTally(f: Forest, rev: PagePtr, d: set<PagePtr>, c: Counts)
    requires Inv(f) && rev in f.known && rev in f.revs && d == Owned(f, rev) && Tally(f, d, c)
    ensures c == f.revs[rev].owned
  {
    assert CountOk(f, rev);
    assert forall k: nat :: k <= 2 ==> OfKind(f, d, k) == OwnedAt(f, rev, k);
  }

  /** Freeing the pages of a revision from which nobody inherits. */
  lemma DropKeeps(f: Forest, rev: PagePtr)
    requires Inv(f) && f.loose == {} && Owners(f) && rev in f.known && rev in f.revs
    requires forall s :: s in f.known && s in f.anc ==> rev !in f.anc[s]
    ensures var f' := Freed(f.(known := f.known - {rev}), rev);
            Inv(f') && Owners(f') && SameLookups(f', f) && SameLookups(f, f')
  {
    var g := f.(known := f.known - {rev});
    ForgetKeeps(f, f.known - {rev});
    FreeKeeps(g, rev);
    hide Inv;
    var f' := Freed(g, rev);
    forall s, offset: nat | s in f'.known && s in f'.revs && s in f.revs
      ensures Lookup(f, s, offset) == Lookup(f', s, offset)
    {
      assert Lookup(f', s, offset) == Lookup(g, s, offset);
    }
    forall s, offset: nat | s in f.known && s in f.revs && s in f'.revs
      ensures Lookup(f', s, offset) == Lookup(f, s, offset)
    {
      assert Lookup(f', s, offset) == Lookup(g, s, offset);
    }
  }
}
