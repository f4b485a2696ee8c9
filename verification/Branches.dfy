/** Branches as chains of revisions, newest first, and who inherits from whom. */
module Branches {
  import opened PageTree
  import opened TreeSteps
  import opened RevisionSteps

  /** Of a BranchPage: where the branch was forked, and its newest revision page. */
  datatype Branch = Branch(forkedFrom: BranchRevId, last: PagePtr)

  ghost function Head(chain: seq<PagePtr>): PagePtr {
    if |chain| > 0 then chain[0] else 0
  }

  /** The linked list of revision pages of branch b, newest first: ids strictly decrease
      and only the newest revision may be writable. */
  ghost predicate ChainOk(f: Forest, b: nat, chain: seq<PagePtr>) {
    && (forall k :: 0 <= k < |chain| ==> LinkedOk(f, b, chain, k))
    && (forall j, k :: 0 <= j < k < |chain| && chain[j] in f.revs && chain[k] in f.revs ==>
          f.revs[chain[j]].brid.revision > f.revs[chain[k]].brid.revision)
  }

  ghost predicate LinkedOk(f: Forest, b: nat, chain: seq<PagePtr>, k: nat)
    requires k < |chain|
  {
    && chain[k] != 0 && chain[k] in f.known && chain[k] in f.revs
    && f.revs[chain[k]].brid.branch == b && f.revs[chain[k]].brid.revision > 0
    && f.revs[chain[k]].last == Head(chain[k + 1..])
    && (k > 0 ==> !f.revs[chain[k]].writable)
  }

  /** The branches that a branch was forked from, directly or not. */
  ghost function Ancestry(branches: map<nat, Branch>, b: nat): set<nat>
    decreases b
  {
    if b in branches && 0 < branches[b].forkedFrom.branch < b
    then {branches[b].forkedFrom.branch} + Ancestry(branches, branches[b].forkedFrom.branch)
    else {}
  }

  ghost predicate DependsOn(branches: map<nat, Branch>, x: nat, b: nat) {
    x == b || b in Ancestry(branches, x)
  }

  ghost predicate BranchesOk(branches: map<nat, Branch>, next: nat) {
    && next >= 1
    && forall b :: b in branches ==>
         && 0 < b < next
         && (branches[b].forkedFrom.branch == 0
               || (branches[b].forkedFrom.branch in branches && branches[b].forkedFrom.branch < b))
  }

  /** A revision inherits from older revisions of its branch and from branches below it. */
  ghost predicate Follows(f: Forest, branches: map<nat, Branch>, s: PagePtr, t: PagePtr) {
    && s in f.revs && t in f.revs
    && var (x, y) := (f.revs[s].brid, f.revs[t].brid);
       (y.branch == x.branch && y.revision < x.revision) || y.branch in Ancestry(branches, x.branch)
  }

  ghost predicate LineageOk(f: Forest, branches: map<nat, Branch>) {
    && (forall s :: s in f.known && s in f.revs ==> f.revs[s].brid.branch in branches)
    && (forall s, t :: s in f.known && s in f.anc && t in f.anc[s] ==> Follows(f, branches, s, t))
  }

  ghost predicate ChainsOk(f: Forest, branches: map<nat, Branch>, chains: map<nat, seq<PagePtr>>) {
    && chains.Keys == branches.Keys
    && forall b :: b in branches ==> ChainOk(f, b, chains[b]) && branches[b].last == Head(chains[b])
  }

  ghost predicate BranchInv(f: Forest, branches: map<nat, Branch>, chains: map<nat, seq<PagePtr>>, next: nat) {
    BranchesOk(branches, next) && ChainsOk(f, branches, chains) && LineageOk(f, branches)
  }

  // ----- ancestry of branches -----

  lemma {:induction false} AncestryBelow(branches: map<nat, Branch>, b: nat)
    ensures forall x :: x in Ancestry(branches, b) ==> 0 < x < b
    decreases b
  {
    if b in branches && 0 < branches[b].forkedFrom.branch < b {
      AncestryBelow(branches, branches[b].forkedFrom.branch);
    }
  }

  /** A new branch with the highest id is below no other branch. */
  lemma {:induction false} AncestryExtends(branches: map<nat, Branch>, added: nat, branch: Branch, b: nat)
    requires b < added
    ensures Ancestry(branches[added := branch], b) == Ancestry(branches, b)
    decreases b
  {
    if b in branches && 0 < branches[b].forkedFrom.branch < b {
      AncestryExtends(branches, added, branch, branches[b].forkedFrom.branch);
    }
  }

  /** Ancestry depends only on where the branches were forked. */
  lemma {:induction false} AncestrySame(branches: map<nat, Branch>, branches': map<nat, Branch>, b: nat)
    requires branches.Keys == branches'.Keys
          && forall x :: x in branches ==> branches'[x].forkedFrom == branches[x].forkedFrom
    ensures Ancestry(branches', b) == Ancestry(branches, b)
    decreases b
  {
    if b in branches && 0 < branches[b].forkedFrom.branch < b {
      AncestrySame(branches, branches', branches[b].forkedFrom.branch);
    }
  }

  /** Removing a branch that nothing was forked from changes no other ancestry. */
  lemma {:induction false} AncestryShrinks(branches: map<nat, Branch>, gone: nat, b: nat)
    requires b != gone && forall x :: x in branches ==> branches[x].forkedFrom.branch != gone
    ensures Ancestry(branches - {gone}, b) == Ancestry(branches, b) && gone !in Ancestry(branches, b)
    decreases b
  {
    if b in branches && 0 < branches[b].forkedFrom.branch < b {
      AncestryShrinks(branches, gone, branches[b].forkedFrom.branch);
    }
  }

  /** Ancestry is transitive. */
  lemma {:induction false} AncestryTransitive(branches: map<nat, Branch>, b: nat, x: nat)
    requires x in Ancestry(branches, b)
    ensures Ancestry(branches, x) <= Ancestry(branches, b)
    decreases b
  {
    var ff := branches[b].forkedFrom.branch;
    if x != ff {
      AncestryTransitive(branches, ff, x);
    }
  }

  // ----- who must be kept -----

  ghost predicate Live(chains: map<nat, seq<PagePtr>>, r: PagePtr) {
    exists b :: b in chains && r in chains[b]
  }

  /** The linked revisions and everything they inherit from. */
  ghost function Needed(f: Forest, chains: map<nat, seq<PagePtr>>): set<PagePtr> {
    set t | t in f.known
        && (Live(chains, t) || exists s :: s in f.known && s in f.anc && Live(chains, s) && t in f.anc[s])
  }

  lemma NeededClosed(f: Forest, chains: map<nat, seq<PagePtr>>)
    requires AncOk(f)
    ensures Needed(f, chains) <= f.known
    ensures forall s :: s in Needed(f, chains) ==> f.anc[s] <= Needed(f, chains)
  {
    forall s, t | s in Needed(f, chains) && t in f.anc[s]
      ensures t in Needed(f, chains)
    {
    }
  }

  /** When nothing was forked from branch b, no needed revision inherits from its newest one. */
  lemma NewestIsFree(f: Forest, branches: map<nat, Branch>, chains: map<nat, seq<PagePtr>>, b: nat)
    requires AncOk(f) && LineageOk(f, branches) && chains.Keys == branches.Keys && b in branches && |chains[b]| > 0
    requires forall x :: x in chains ==> ChainOk(f, x, chains[x])
    requires forall x :: x in branches ==> branches[x].forkedFrom.branch != b
    ensures forall s :: s in Needed(f, chains) ==> chains[b][0] !in f.anc[s]
  {
    var r := chains[b][0];
    assert LinkedOk(f, b, chains[b], 0);
    forall s | s in f.known && Live(chains, s)
      ensures r !in f.anc[s]
    {
      var x :| x in chains && s in chains[x];
      var k :| 0 <= k < |chains[x]| && chains[x][k] == s;
      assert LinkedOk(f, x, chains[x], k);
      if r in f.anc[s] {
        assert Follows(f, branches, s, r);
        AncestryBelow(branches, x);
        if x != b {
          AncestryShrinks(branches, b, x);
        }
        assert false;
      }
    }
  }

  // ----- changes to one revision page that leave its tree alone -----

  ghost function Rewritten(f: Forest, r: PagePtr, v: Revision): Forest {
    f.(revs := f.revs[r := v])
  }

  /** Clearing `writable` or relinking `last` changes no tree. */
  lemma RewriteKeeps(f: Forest, r: PagePtr, v: Revision)
    requires Inv(f) && r in f.known && r in f.revs
    requires v == f.revs[r].(writable := v.writable, last := v.last) && (v.writable ==> f.revs[r].writable)
    ensures Inv(Rewritten(f, r, v)) && SameLookups(f, Rewritten(f, r, v))
  {
    RewriteKids(f, r, v);
    RewriteLinks(f, r, v);
    SameOwners(f, Rewritten(f, r, v));
  }

  lemma RewriteKids(f: Forest, r: PagePtr, v: Revision)
    requires PagesOk(f) && KidsOk(f) && r in f.revs && v.brid == f.revs[r].brid
    ensures KidsOk(Rewritten(f, r, v))
  {
    var f' := Rewritten(f, r, v);
    forall x, i: nat | x in f'.pages && f'.meta[x].owner in f'.known && Kid(f'.pages[x], i) != 0
      ensures KidOk(f', x, i)
    {
      assert KidOk(f, x, i);
    }
  }

  lemma RewriteLinks(f: Forest, r: PagePtr, v: Revision)
    requires PagesOk(f) && LinksOk(f) && f.known <= f.revs.Keys && RootsOk(f)
    requires r in f.revs && v.root == f.revs[r].root && v.level == f.revs[r].level
    ensures LinksOk(Rewritten(f, r, v)) && RootsOk(Rewritten(f, r, v))
  {
    var f' := Rewritten(f, r, v);
    forall s | s in f'.known
      ensures RootOk(f', s)
    {
      assert RootOk(f, s);
    }
    forall x | x in f'.pages && f'.meta[x].owner in f'.known && x !in f'.loose
      ensures LinkOk(f', x)
    {
      assert LinkOk(f, x);
    }
  }

  // ----- what keeps the branches -----

  /** Branches only see the ids, links and writable flags of revisions. */
  ghost predicate SameFaces(f: Forest, f': Forest) {
    && f'.known <= f.known && f'.anc == f.anc
    && forall s :: s in f'.known && s in f.revs ==>
         && s in f'.revs && f'.revs[s].brid == f.revs[s].brid && f'.revs[s].last == f.revs[s].last
         && (f'.revs[s].writable ==> f.revs[s].writable)
  }

  lemma LineageSame(f: Forest, f': Forest, branches: map<nat, Branch>)
    requires LineageOk(f, branches) && f'.known <= f.known && f'.anc == f.anc && f.known <= f.revs.Keys
    requires forall s :: s in f'.known ==> s in f.anc && f.anc[s] <= f'.known
    requires forall s :: s in f'.known ==> s in f'.revs && f'.revs[s].brid == f.revs[s].brid
    ensures LineageOk(f', branches)
  {
    forall s, t | s in f'.known && s in f'.anc && t in f'.anc[s]
      ensures Follows(f', branches, s, t)
    {
      assert Follows(f, branches, s, t);
    }
  }

  lemma ChainSame(f: Forest, f': Forest, b: nat, chain: seq<PagePtr>)
    requires ChainOk(f, b, chain) && SameFaces(f, f') && forall k :: 0 <= k < |chain| ==> chain[k] in f'.known
    ensures ChainOk(f', b, chain)
  {
    forall k | 0 <= k < |chain|
      ensures LinkedOk(f', b, chain, k)
    {
      assert LinkedOk(f, b, chain, k);
    }
    forall j, k | 0 <= j < k < |chain| && chain[j] in f'.revs && chain[k] in f'.revs
      ensures f'.revs[chain[j]].brid.revision > f'.revs[chain[k]].brid.revision
    {
      assert LinkedOk(f, b, chain, j) && LinkedOk(f, b, chain, k);
    }
  }

  /** Working inside the trees keeps the branches. */
  lemma SameBranches(f: Forest, f': Forest, branches: map<nat, Branch>, chains: map<nat, seq<PagePtr>>, next: nat)
    requires BranchInv(f, branches, chains, next) && SameFaces(f, f') && f'.known == f.known
    requires f.known <= f.revs.Keys && forall s :: s in f.known ==> s in f.anc && f.anc[s] <= f.known
    ensures BranchInv(f', branches, chains, next)
  {
    LineageSame(f, f', branches);
    forall b | b in branches
      ensures ChainOk(f', b, chains[b])
    {
      forall k | 0 <= k < |chains[b]|
        ensures chains[b][k] in f'.known
      {
        assert LinkedOk(f, b, chains[b], k);
      }
      ChainSame(f, f', b, chains[b]);
    }
  }

  // ----- a new revision at the head of a branch -----

  ghost predicate Arrives(f: Forest, f': Forest, r: PagePtr) {
    && r !in f.revs && r !in f.known && r != 0 && r in f'.revs && r in f'.anc && f'.known == f.known + {r}
    && f.known <= f.revs.Keys
    && (forall s :: s in f.known ==>
          s in f'.revs && f'.revs[s] == f.revs[s] && s in f.anc && s in f'.anc && f'.anc[s] == f.anc[s]
          && f.anc[s] <= f.known)
  }

  lemma ChainGrows(f: Forest, f': Forest, b: nat, chain: seq<PagePtr>, r: PagePtr)
    requires ChainOk(f, b, chain) && Arrives(f, f', r)
    requires f'.revs[r].brid.branch == b && f'.revs[r].last == Head(chain)
    requires f'.revs[r].brid.revision > if |chain| > 0 && chain[0] in f.revs then f.revs[chain[0]].brid.revision else 0
    requires |chain| > 0 && chain[0] in f.revs ==> !f.revs[chain[0]].writable
    ensures ChainOk(f', b, [r] + chain)
  {
    var c := [r] + chain;
    forall k | 0 <= k < |c|
      ensures LinkedOk(f', b, c, k)
    {
      if k > 0 {
        assert LinkedOk(f, b, chain, k - 1);
        assert c[k + 1..] == chain[k..];
      } else {
        assert c[1..] == chain;
      }
    }
    forall j, k | 0 <= j < k < |c| && c[j] in f'.revs && c[k] in f'.revs
      ensures f'.revs[c[j]].brid.revision > f'.revs[c[k]].brid.revision
    {
      assert LinkedOk(f, b, chain, k - 1) && LinkedOk(f, b, chain, 0);
      if j > 0 {
        assert LinkedOk(f, b, chain, j - 1);
        assert f.revs[chain[j - 1]].brid.revision > f.revs[chain[k - 1]].brid.revision;
      } else if k > 1 {
        assert f.revs[chain[0]].brid.revision > f.revs[chain[k - 1]].brid.revision;
      }
    }
  }

  lemma ChainStays(f: Forest, f': Forest, b: nat, chain: seq<PagePtr>, r: PagePtr)
    requires ChainOk(f, b, chain) && Arrives(f, f', r)
    ensures ChainOk(f', b, chain)
  {
    forall k | 0 <= k < |chain|
      ensures LinkedOk(f', b, chain, k)
    {
      assert LinkedOk(f, b, chain, k);
    }
    forall j, k | 0 <= j < k < |chain| && chain[j] in f'.revs && chain[k] in f'.revs
      ensures f'.revs[chain[j]].brid.revision > f'.revs[chain[k]].brid.revision
    {
      assert LinkedOk(f, b, chain, j) && LinkedOk(f, b, chain, k);
    }
  }

  lemma NewRevisionKeeps(f: Forest, f': Forest, branches: map<nat, Branch>, chains: map<nat, seq<PagePtr>>, next: nat,
      b: nat, r: PagePtr)
    requires BranchInv(f, branches, chains, next) && b in branches && Arrives(f, f', r)
    requires f'.revs[r].brid.branch == b && f'.revs[r].last == branches[b].last
    requires f'.revs[r].brid.revision > if |chains[b]| > 0 && chains[b][0] in f.revs
          then f.revs[chains[b][0]].brid.revision else 0
    requires |chains[b]| > 0 && chains[b][0] in f.revs ==> !f.revs[chains[b][0]].writable
    requires forall t :: t in f'.anc[r] ==> t in f.known && Follows(f', branches, r, t)
    ensures BranchInv(f', branches[b := branches[b].(last := r)], chains[b := [r] + chains[b]], next)
  {
    hide ChainOk;
    var branches', chains' := branches[b := branches[b].(last := r)], chains[b := [r] + chains[b]];
    forall x | x in branches'
      ensures ChainOk(f', x, chains'[x]) && branches'[x].last == Head(chains'[x])
    {
      if x == b {
        ChainGrows(f, f', b, chains[b], r);
      } else {
        ChainStays(f, f', x, chains[x], r);
      }
    }
    forall s, t | s in f'.known && s in f'.anc && t in f'.anc[s]
      ensures Follows(f', branches', s, t)
    {
      AncestrySame(branches, branches', f'.revs[s].brid.branch);
      if s != r {
        assert Follows(f, branches, s, t);
      }
    }
  }

  /** A new branch without revisions. */
  lemma NewBranchKeeps(f: Forest, branches: map<nat, Branch>, chains: map<nat, seq<PagePtr>>, next: nat,
      forkedFrom: BranchRevId)
    requires BranchInv(f, branches, chains, next) && (forkedFrom.branch == 0 || forkedFrom.branch in branches)
    ensures BranchInv(f, branches[next := Branch(forkedFrom, 0)], chains[next := []], next + 1)
  {
    var branches' := branches[next := Branch(forkedFrom, 0)];
    forall s, t | s in f.known && s in f.anc && t in f.anc[s]
      ensures Follows(f, branches', s, t)
    {
      assert Follows(f, branches, s, t);
      AncestryExtends(branches, next, Branch(forkedFrom, 0), f.revs[s].brid.branch);
    }
  }

  // ----- dropping a range of revisions from a chain -----

  /** dropRevisions(from, to) drops these ids; 0 leaves that end open. */
  predicate InRange(id: nat, from: nat, to: nat) {
    (to == 0 || id <= to) && from <= id
  }

  /** The chain without the revisions in the range, in the same order. */
  ghost function Kept(f: Forest, chain: seq<PagePtr>, from: nat, to: nat): seq<PagePtr> {
    if chain == [] then []
    else if chain[0] in f.revs && InRange(f.revs[chain[0]].brid.revision, from, to) then Kept(f, chain[1..], from, to)
    else [chain[0]] + Kept(f, chain[1..], from, to)
  }

  lemma {:induction false} KeptAll(f: Forest, chain: seq<PagePtr>, from: nat, to: nat)
    requires forall k :: 0 <= k < |chain| ==> chain[k] in f.revs && !InRange(f.revs[chain[k]].brid.revision, from, to)
    ensures Kept(f, chain, from, to) == chain
  {
    if chain != [] {
      KeptAll(f, chain[1..], from, to);
    }
  }

  lemma {:induction false} KeptNone(f: Forest, chain: seq<PagePtr>, rest: seq<PagePtr>, from: nat, to: nat)
    requires forall k :: 0 <= k < |chain| ==> chain[k] in f.revs && InRange(f.revs[chain[k]].brid.revision, from, to)
    ensures Kept(f, chain + rest, from, to) == Kept(f, rest, from, to)
  {
    if chain == [] {
      assert chain + rest == rest;
    } else {
      assert (chain + rest)[1..] == chain[1..] + rest;
      KeptNone(f, chain[1..], rest, from, to);
    }
  }

  lemma {:induction false} KeptPrefix(f: Forest, chain: seq<PagePtr>, rest: seq<PagePtr>, from: nat, to: nat)
    requires forall k :: 0 <= k < |chain| ==> chain[k] in f.revs && !InRange(f.revs[chain[k]].brid.revision, from, to)
    ensures Kept(f, chain + rest, from, to) == chain + Kept(f, rest, from, to)
  {
    if chain == [] {
      assert chain + rest == rest;
    } else {
      assert (chain + rest)[1..] == chain[1..] + rest;
      KeptPrefix(f, chain[1..], rest, from, to);
    }
  }

  /** How far the scan of dropRevisions has come: n newer revisions, then only dropped ones up to k. */
  ghost predicate Scanned(f: Forest, chain: seq<PagePtr>, from: nat, to: nat, n: nat, k: nat) {
    && n <= k <= |chain|
    && (forall j :: 0 <= j < n ==> chain[j] in f.revs && to != 0 && f.revs[chain[j]].brid.revision > to)
    && (forall j :: n <= j < k ==> chain[j] in f.revs && InRange(f.revs[chain[j]].brid.revision, from, to))
  }

  /** Behind a revision older than the range everything is older. */
  lemma OlderKept(f: Forest, b: nat, chain: seq<PagePtr>, from: nat, to: nat, k: nat)
    requires ChainOk(f, b, chain) && k <= |chain|
    requires k < |chain| ==> chain[k] in f.revs && f.revs[chain[k]].brid.revision < from
    ensures Kept(f, chain[k..], from, to) == chain[k..]
  {
    forall j | k <= j < |chain|
      ensures chain[j] in f.revs && f.revs[chain[j]].brid.revision < from
    {
      assert LinkedOk(f, b, chain, j) && LinkedOk(f, b, chain, k);
    }
    KeptAll(f, chain[k..], from, to);
  }

  lemma ScannedParts(f: Forest, chain: seq<PagePtr>, from: nat, to: nat, n: nat, k: nat)
    requires Scanned(f, chain, from, to, n, k)
    ensures forall j :: 0 <= j < |chain[..n]| ==>
              chain[..n][j] in f.revs && !InRange(f.revs[chain[..n][j]].brid.revision, from, to)
    ensures forall j :: 0 <= j < |chain[n..k]| ==>
              chain[n..k][j] in f.revs && InRange(f.revs[chain[n..k][j]].brid.revision, from, to)
  {
    forall j | 0 <= j < |chain[n..k]|
      ensures chain[n..k][j] in f.revs && InRange(f.revs[chain[n..k][j]].brid.revision, from, to)
    {
      assert chain[n..k][j] == chain[n + j];
    }
  }

  /** The scan ends with the kept chain in two pieces. */
  lemma ScanResult(f: Forest, b: nat, chain: seq<PagePtr>, from: nat, to: nat, n: nat, k: nat)
    requires ChainOk(f, b, chain) && Scanned(f, chain, from, to, n, k)
    requires k < |chain| ==> chain[k] in f.revs && f.revs[chain[k]].brid.revision < from
    ensures Kept(f, chain, from, to) == chain[..n] + chain[k..]
  {
    hide ChainOk, Kept, LinkedOk;
    OlderKept(f, b, chain, from, to, k);
    var newer, gone, older := chain[..n], chain[n..k], chain[k..];
    ScannedParts(f, chain, from, to, n, k);
    assert chain == newer + (gone + older);
    hide Scanned;
    KeptPrefix(f, newer, gone + older, from, to);
    KeptNone(f, gone, older, from, to);
  }

  ghost predicate Cut(f: Forest, f': Forest, chain: seq<PagePtr>, n: nat, k: nat) {
    && n <= k <= |chain| && f'.known == f.known
    && (if n > 0 then chain[n - 1] in f.revs
          && f' == Rewritten(f, chain[n - 1], f.revs[chain[n - 1]].(last := Head(chain[k..])))
        else f' == f)
  }

  lemma HeadBehind(chain: seq<PagePtr>, k: nat)
    requires k <= |chain|
    ensures Head(chain[k..]) == if k < |chain| then chain[k] else 0
  {
  }

  lemma NotTheLast(f: Forest, b: nat, chain: seq<PagePtr>, n: nat, i: nat)
    requires ChainOk(f, b, chain) && i < |chain| && n <= |chain|
    ensures LinkedOk(f, b, chain, i) && (n > 0 && i != n - 1 ==> chain[i] != chain[n - 1])
  {
    if n > 0 && i != n - 1 {
      ChainDistinct(f, b, chain, i, n - 1);
    }
  }

  lemma CutLinked(f: Forest, f': Forest, b: nat, chain: seq<PagePtr>, n: nat, k: nat, j: nat)
    requires ChainOk(f, b, chain) && Cut(f, f', chain, n, k) && j < n + |chain| - k
    ensures LinkedOk(f', b, chain[..n] + chain[k..], j)
  {
    hide ChainOk, Head;
    var c := chain[..n] + chain[k..];
    var i := if j < n then j else j - n + k;
    NotTheLast(f, b, chain, n, i);
    HeadBehind(c, j + 1);
    HeadBehind(chain, i + 1);
    HeadBehind(chain, k);
    assert c[j] == chain[i];
  }

  /** Cutting out a stretch and relinking around it leaves a well-formed chain. */
  lemma CutChain(f: Forest, f': Forest, b: nat, chain: seq<PagePtr>, n: nat, k: nat)
    requires ChainOk(f, b, chain) && Cut(f, f', chain, n, k)
    ensures ChainOk(f', b, chain[..n] + chain[k..])
  {
    var c := chain[..n] + chain[k..];
    forall j | 0 <= j < |c|
      ensures LinkedOk(f', b, c, j)
    {
      CutLinked(f, f', b, chain, n, k, j);
    }
    forall i, j | 0 <= i < j < |c| && c[i] in f'.revs && c[j] in f'.revs
      ensures f'.revs[c[i]].brid.revision > f'.revs[c[j]].brid.revision
    {
      CutOrder(f, f', b, chain, n, k, i, j);
    }
  }

  lemma CutOrder(f: Forest, f': Forest, b: nat, chain: seq<PagePtr>, n: nat, k: nat, i: nat, j: nat)
    requires ChainOk(f, b, chain) && Cut(f, f', chain, n, k) && i < j < n + |chain| - k
    ensures var c := chain[..n] + chain[k..];
            c[i] in f'.revs && c[j] in f'.revs && f'.revs[c[i]].brid.revision > f'.revs[c[j]].brid.revision
  {
    var i', j' := if i < n then i else i - n + k, if j < n then j else j - n + k;
    assert LinkedOk(f, b, chain, i') && LinkedOk(f, b, chain, j');
    assert f.revs[chain[i']].brid.revision > f.revs[chain[j']].brid.revision;
  }

  lemma ChainDistinct(f: Forest, b: nat, chain: seq<PagePtr>, i: nat, j: nat)
    requires ChainOk(f, b, chain) && i < |chain| && j < |chain| && i != j
    ensures chain[i] != chain[j]
  {
    assert LinkedOk(f, b, chain, i) && LinkedOk(f, b, chain, j);
  }

  lemma OtherChain(f: Forest, r: PagePtr, v: Revision, b: nat, x: nat, chain: seq<PagePtr>)
    requires ChainOk(f, x, chain) && x != b && r in f.revs && f.revs[r].brid.branch == b && v.brid == f.revs[r].brid
    ensures ChainOk(Rewritten(f, r, v), x, chain)
  {
    var f' := Rewritten(f, r, v);
    forall k | 0 <= k < |chain|
      ensures LinkedOk(f', x, chain, k)
    {
      assert LinkedOk(f, x, chain, k);
    }
    forall i, j | 0 <= i < j < |chain| && chain[i] in f'.revs && chain[j] in f'.revs
      ensures f'.revs[chain[i]].brid.revision > f'.revs[chain[j]].brid.revision
    {
      assert LinkedOk(f, x, chain, i) && LinkedOk(f, x, chain, j);
    }
  }

  /** Cutting a stretch out of the chain of one branch keeps all branches. */
  lemma CutKeeps(f: Forest, f': Forest, branches: map<nat, Branch>, branches': map<nat, Branch>,
      chains: map<nat, seq<PagePtr>>, next: nat, b: nat, n: nat, k: nat)
    requires BranchInv(f, branches, chains, next) && AncOk(f) && b in branches && Cut(f, f', chains[b], n, k)
    requires branches' == if n > 0 then branches else branches[b := branches[b].(last := Head(chains[b][k..]))]
    ensures BranchInv(f', branches', chains[b := chains[b][..n] + chains[b][k..]], next)
  {
    hide LineageOk, AncOk, ChainOk, LinkedOk;
    CutChain(f, f', b, chains[b], n, k);
    CutHead(f, b, chains[b], n, k);
    forall x | x in branches && x != b
      ensures ChainOk(f', x, chains[x])
    {
      CutOther(f, f', b, chains[b], n, k, x, chains[x]);
    }
    CutLineage(f, f', branches, branches');
  }

  lemma CutHead(f: Forest, b: nat, chain: seq<PagePtr>, n: nat, k: nat)
    requires ChainOk(f, b, chain) && n <= k <= |chain|
    ensures n > 0 ==> chain[n - 1] in f.revs && chain[n - 1] in f.known
    ensures Head(chain[..n] + chain[k..]) == if n > 0 then Head(chain) else Head(chain[k..])
  {
    if n > 0 {
      assert LinkedOk(f, b, chain, n - 1);
    } else {
      assert chain[..n] + chain[k..] == chain[k..];
    }
  }

  lemma CutOther(f: Forest, f': Forest, b: nat, chain: seq<PagePtr>, n: nat, k: nat, x: nat, other: seq<PagePtr>)
    requires ChainOk(f, b, chain) && Cut(f, f', chain, n, k) && ChainOk(f, x, other) && x != b
    ensures ChainOk(f', x, other)
  {
    hide ChainOk;
    if n > 0 {
      LinkOfChain(f, b, chain, n - 1);
      OtherChain(f, chain[n - 1], f'.revs[chain[n - 1]], b, x, other);
    }
  }

  lemma LinkOfChain(f: Forest, b: nat, chain: seq<PagePtr>, k: nat)
    requires ChainOk(f, b, chain) && k < |chain|
    ensures LinkedOk(f, b, chain, k)
  {
  }

  lemma CutLineage(f: Forest, f': Forest, branches: map<nat, Branch>, branches': map<nat, Branch>)
    requires LineageOk(f, branches) && AncOk(f) && f'.known == f.known && f'.anc == f.anc && f'.revs.Keys == f.revs.Keys
    requires forall s :: s in f.revs ==> f'.revs[s].brid == f.revs[s].brid
    requires branches'.Keys == branches.Keys
          && forall x :: x in branches ==> branches'[x].forkedFrom == branches[x].forkedFrom
    ensures LineageOk(f', branches')
  {
    forall s, t | s in f'.known && s in f'.anc && t in f'.anc[s]
      ensures Follows(f', branches', s, t)
    {
      assert Follows(f, branches, s, t);
      AncestrySame(branches, branches', f.revs[s].brid.branch);
    }
  }

  // ----- deleting revisions -----

  ghost function Forgotten(f: Forest, chains: map<nat, seq<PagePtr>>): Forest {
    f.(known := Needed(f, chains))
  }

  /** Once what no linked revision needs is forgotten, nobody inherits from the newest revision of b. */
  lemma ForgetStep(f: Forest, branches: map<nat, Branch>, chains: map<nat, seq<PagePtr>>, next: nat, b: nat)
    requires Inv(f) && BranchInv(f, branches, chains, next) && b in branches && |chains[b]| > 0
    requires forall x :: x in branches ==> branches[x].forkedFrom.branch != b
    ensures Inv(Forgotten(f, chains)) && BranchInv(Forgotten(f, chains), branches, chains, next)
    ensures chains[b][0] in Forgotten(f, chains).known && chains[b][0] in f.revs
    ensures forall s :: s in Forgotten(f, chains).known ==>
          s in f.known && s in f.anc && chains[b][0] !in f.anc[s] && f.anc[s] <= Needed(f, chains)
  {
    hide Needed, SameLookups, LineageOk;
    NeededClosed(f, chains);
    ForgetKeeps(f, Needed(f, chains));
    ForgetBranches(f, branches, chains, next);
    assert LinkedOk(Forgotten(f, chains), b, chains[b], 0);
    NewestIsFree(f, branches, chains, b);
  }

  lemma FreedOne(f: Forest, g: Forest, known: set<PagePtr>, r: PagePtr)
    requires known <= f.known && g == f.(known := g.known) && SameLookups(Freed(f.(known := known), r), g)
    ensures FreedExactly(f, Freed(f.(known := known), r), {r})
  {
    var h := Freed(f.(known := known), r);
    assert OwnedBy(f, {r}) == Owned(f.(known := known), r);
    forall s, offset: nat | s in h.known && s in h.revs && s in f.revs
      ensures Lookup(f, s, offset) == Lookup(h, s, offset)
    {
      assert Lookup(g, s, offset) == Lookup(h, s, offset);
    }
  }

  /** All pages owned by the revisions of a set. */
  ghost function OwnedBy(f: Forest, rs: set<PagePtr>): set<PagePtr> {
    set p | p in f.pages && p in f.meta && f.meta[p].owner in rs
  }

  ghost function Items(chain: seq<PagePtr>): set<PagePtr> {
    set r | r in chain
  }

  /** Exactly the pages that the revisions `rs` own are gone; whatever is left is unchanged,
      and every revision that is still known reads what it read before. */
  ghost predicate FreedExactly(f: Forest, f': Forest, rs: set<PagePtr>) {
    && f'.pages == f.pages - OwnedBy(f, rs) && f'.meta == f.meta - OwnedBy(f, rs)
    && f'.known <= f.known && f'.anc == f.anc && f'.revs == f.revs - rs
    && SameLookups(f', f)
  }

  lemma NothingFreed(f: Forest)
    ensures FreedExactly(f, f, {})
  {
    assert OwnedBy(f, {}) == {};
  }

  lemma FreedCompose(f: Forest, g: Forest, h: Forest, rs: set<PagePtr>, ss: set<PagePtr>)
    requires FreedExactly(f, g, rs) && FreedExactly(g, h, ss) && h.known <= h.revs.Keys && g.known <= g.revs.Keys
    requires f.meta.Keys == f.pages.Keys && g.meta.Keys == g.pages.Keys
    ensures FreedExactly(f, h, rs + ss)
  {
    assert OwnedBy(f, rs + ss) == OwnedBy(f, rs) + OwnedBy(g, ss) by {
      forall p | p in f.pages
        ensures p in OwnedBy(f, rs + ss) <==> p in OwnedBy(f, rs) || p in OwnedBy(g, ss)
      {
      }
    }
    assert h.pages == f.pages - OwnedBy(f, rs + ss);
    assert h.meta == f.meta - OwnedBy(f, rs + ss);
    FreedLookups(f, g, h);
  }

  lemma FreedLookups(f: Forest, g: Forest, h: Forest)
    requires SameLookups(g, f) && SameLookups(h, g) && h.known <= g.known && g.known <= g.revs.Keys
    ensures SameLookups(h, f)
  {
    forall s, offset: nat | s in h.known && s in h.revs && s in f.revs
      ensures Lookup(f, s, offset) == Lookup(h, s, offset)
    {
      assert Lookup(g, s, offset) == Lookup(h, s, offset);
    }
  }

  /** Forgetting what no linked revision needs keeps the branches. */
  lemma ForgetBranches(f: Forest, branches: map<nat, Branch>, chains: map<nat, seq<PagePtr>>, next: nat)
    requires AncOk(f) && BranchInv(f, branches, chains, next)
    ensures BranchInv(f.(known := Needed(f, chains)), branches, chains, next)
  {
    var f' := f.(known := Needed(f, chains));
    NeededClosed(f, chains);
    forall s, t | s in f'.known && s in f'.anc && t in f'.anc[s]
      ensures Follows(f', branches, s, t)
    {
      assert Follows(f, branches, s, t);
    }
    forall b | b in branches
      ensures ChainOk(f', b, chains[b])
    {
      forall k | 0 <= k < |chains[b]|
        ensures chains[b][k] in f'.known
      {
        assert LinkedOk(f, b, chains[b], k);
        assert chains[b][k] in chains[b] && Live(chains, chains[b][k]);
      }
      ChainSame(f, f', b, chains[b]);
    }
  }

  lemma TailChain(f: Forest, f': Forest, b: nat, chain: seq<PagePtr>)
    requires ChainOk(f, b, chain) && |chain| > 0
    requires f'.known == f.known - {chain[0]}
          && forall s :: s in f'.known && s in f.revs ==> s in f'.revs && f'.revs[s] == f.revs[s]
    ensures ChainOk(f', b, chain[1..])
  {
    var c := chain[1..];
    forall k | 0 <= k < |c|
      ensures LinkedOk(f', b, c, k)
    {
      assert LinkedOk(f, b, chain, k + 1);
      ChainDistinct(f, b, chain, 0, k + 1);
      assert c[k + 1..] == chain[k + 2..];
    }
    forall i, j | 0 <= i < j < |c| && c[i] in f'.revs && c[j] in f'.revs
      ensures f'.revs[c[i]].brid.revision > f'.revs[c[j]].brid.revision
    {
      assert LinkedOk(f', b, c, i) && LinkedOk(f', b, c, j);
      assert LinkedOk(f, b, chain, i + 1) && LinkedOk(f, b, chain, j + 1);
    }
  }

  /** Unlinking the newest revision of branch b, after its pages are freed. */
  lemma DropNewest(f: Forest, f': Forest, branches: map<nat, Branch>, chains: map<nat, seq<PagePtr>>, next: nat, b: nat)
    requires BranchInv(f, branches, chains, next) && b in branches && |chains[b]| > 0
    requires f'.known == f.known - {chains[b][0]} && f'.anc == f.anc
    requires f.known <= f.revs.Keys
          && forall s :: s in f'.known ==> s in f'.revs && f'.revs[s] == f.revs[s] && s in f.anc && f.anc[s] <= f'.known
    ensures BranchInv(f', branches[b := branches[b].(last := Head(chains[b][1..]))], chains[b := chains[b][1..]], next)
  {
    var r := chains[b][0];
    var branches', chains' := branches[b := branches[b].(last := Head(chains[b][1..]))], chains[b := chains[b][1..]];
    assert LinkedOk(f, b, chains[b], 0);
    forall x | x in branches'
      ensures ChainOk(f', x, chains'[x])
    {
      if x == b {
        TailChain(f, f', b, chains[b]);
      } else {
        forall k | 0 <= k < |chains[x]|
          ensures chains[x][k] in f'.known
        {
          assert LinkedOk(f, x, chains[x], k);
        }
        ChainSame(f, f', x, chains[x]);
      }
    }
    forall s, t | s in f'.known && s in f'.anc && t in f'.anc[s]
      ensures Follows(f', branches', s, t)
    {
      assert Follows(f, branches, s, t);
      AncestrySame(branches, branches', f.revs[s].brid.branch);
    }
  }

  // ----- deleting a branch and its dependants -----

  /** The branch and all branches that depend on it, directly or not. */
  ghost function Dependants(branches: map<nat, Branch>, b: nat): set<nat> {
    set x | x in branches && DependsOn(branches, x, b)
  }

  /** The revisions that the branches of a set link. */
  ghost function Linked(chains: map<nat, seq<PagePtr>>, bs: set<nat>): set<PagePtr> {
    set b, r | b in bs && b in chains && r in chains[b] :: r
  }

  /** The branches deleted so far while the dependants of b go. */
  ghost predicate Pruned(branches: map<nat, Branch>, b: nat, gone: set<nat>) {
    && gone <= Dependants(branches, b) - {b}
    && forall x :: x in branches && branches[x].forkedFrom.branch in gone ==> x in gone
  }

  lemma {:induction false} PrunedAncestry(branches: map<nat, Branch>, gone: set<nat>, x: nat)
    requires forall y :: y in branches && branches[y].forkedFrom.branch in gone ==> y in gone
    requires x !in gone
    ensures Ancestry(branches - gone, x) == Ancestry(branches, x)
    decreases x
  {
    if x in branches && 0 < branches[x].forkedFrom.branch < x {
      PrunedAncestry(branches, gone, branches[x].forkedFrom.branch);
    }
  }

  /** Deleting one more branch forked from b, with its own dependants. */
  lemma PruneMore(branches: map<nat, Branch>, next: nat, b: nat, gone: set<nat>, c: nat)
    requires BranchesOk(branches, next) && b in branches && Pruned(branches, b, gone)
    requires c in branches - gone && branches[c].forkedFrom.branch == b
    ensures Pruned(branches, b, gone + Dependants(branches - gone, c)) && c in Dependants(branches - gone, c)
    ensures b < c < next
  {
    var rest := branches - gone;
    forall x | x in Dependants(rest, c)
      ensures x in Dependants(branches, b) - {b}
    {
      PrunedAncestry(branches, gone, x);
      AncestryBelow(branches, x);
      assert b in Ancestry(branches, c);
      if x != c {
        AncestryTransitive(branches, x, c);
      }
    }
  }

  /** When nothing forked from b is left, all its dependants are gone. */
  lemma PrunedAll(branches: map<nat, Branch>, next: nat, b: nat, gone: set<nat>)
    requires BranchesOk(branches, next) && b in branches && Pruned(branches, b, gone)
    requires forall x :: x in branches - gone ==> branches[x].forkedFrom.branch != b
    ensures gone + {b} == Dependants(branches, b)
  {
    forall x | x in Dependants(branches, b) && x != b
      ensures x in gone
    {
      if x !in gone {
        PrunedAncestry(branches, gone, x);
        AncestryShrinks(branches - gone, b, x);
        assert false;
      }
    }
  }

  /** A branch without revisions and without dependants can be removed. */
  lemma RemoveBranch(f: Forest, branches: map<nat, Branch>, chains: map<nat, seq<PagePtr>>, next: nat, b: nat)
    requires Inv(f) && BranchInv(f, branches, chains, next) && b in branches && chains[b] == []
    requires forall x :: x in branches ==> branches[x].forkedFrom.branch != b
    ensures Inv(Forgotten(f, chains)) && BranchInv(Forgotten(f, chains), branches - {b}, chains - {b}, next)
    ensures FreedExactly(f, Forgotten(f, chains), {})
  {
    hide Inv, SameLookups, LineageOk, Needed;
    InvAncestors(f);
    NeededClosed(f, chains);
    ForgetKeeps(f, Needed(f, chains));
    ForgetBranches(f, branches, chains, next);
    RemoveLineage(f, branches, chains, b);
    NothingForgotten(f, Needed(f, chains));
  }

  lemma InvAncestors(f: Forest)
    requires Inv(f)
    ensures AncOk(f)
  {
  }

  lemma NothingForgotten(f: Forest, known: set<PagePtr>)
    requires known <= f.known
    ensures FreedExactly(f, f.(known := known), {})
  {
    assert OwnedBy(f, {}) == {};
  }

  lemma RemoveLineage(f: Forest, branches: map<nat, Branch>, chains: map<nat, seq<PagePtr>>, b: nat)
    requires AncOk(f) && LineageOk(f, branches) && chains.Keys == branches.Keys && b in branches && chains[b] == []
    requires forall x :: x in chains ==> ChainOk(f, x, chains[x])
    requires forall x :: x in branches ==> branches[x].forkedFrom.branch != b
    ensures LineageOk(Forgotten(f, chains), branches - {b})
  {
    var g := Forgotten(f, chains);
    NeededClosed(f, chains);
    forall s | s in g.known
      ensures f.revs[s].brid.branch != b
    {
      NeededElsewhere(f, branches, chains, b, s);
    }
    forall s, t | s in g.known && s in g.anc && t in g.anc[s]
      ensures Follows(g, branches - {b}, s, t)
    {
      assert Follows(f, branches, s, t);
      AncestryShrinks(branches, b, f.revs[s].brid.branch);
    }
  }

  lemma NeededElsewhere(f: Forest, branches: map<nat, Branch>, chains: map<nat, seq<PagePtr>>, b: nat, t: PagePtr)
    requires AncOk(f) && LineageOk(f, branches) && chains.Keys == branches.Keys && b in branches && chains[b] == []
    requires forall x :: x in chains ==> ChainOk(f, x, chains[x])
    requires forall x :: x in branches ==> branches[x].forkedFrom.branch != b
    requires t in Needed(f, chains)
    ensures f.revs[t].brid.branch != b
  {
    var s :| s in f.known && Live(chains, s) && (t == s || t in f.anc[s]);
    var x :| x in chains && s in chains[x];
    var k :| 0 <= k < |chains[x]| && chains[x][k] == s;
    assert LinkedOk(f, x, chains[x], k);
    AncestryShrinks(branches, b, x);
    if t != s {
      assert Follows(f, branches, s, t);
    }
  }

  lemma LinkedSplit(chains: map<nat, seq<PagePtr>>, gone: set<nat>, more: set<nat>)
    requires more !! gone
    ensures Linked(chains, gone + more) == Linked(chains, gone) + Linked(chains - gone, more)
  {
    forall r | r in Linked(chains, gone + more)
      ensures r in Linked(chains, gone) + Linked(chains - gone, more)
    {
      var b :| b in gone + more && b in chains && r in chains[b];
      assert b in gone || (b in chains - gone && r in (chains - gone)[b]);
    }
    forall r | r in Linked(chains - gone, more)
      ensures r in Linked(chains, gone + more)
    {
      var b :| b in more && b in chains - gone && r in (chains - gone)[b];
      assert b in gone + more && r in chains[b];
    }
  }

  lemma LinkedOne(chains: map<nat, seq<PagePtr>>, b: nat)
    requires b in chains
    ensures Linked(chains, {b}) == Items(chains[b])
  {
  }
}
