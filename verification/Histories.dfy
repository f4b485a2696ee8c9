/** What a run reads, told by its operations alone: the pages that revisions share behave like one plain map per
    revision. */
module Histories {
  import opened Radix
  import opened PageTree
  import opened TreeSteps
  import opened RevisionSteps
  import opened TreeWalk
  import opened Writing
  import opened Branches
  import opened BranchManager
  import opened Snapshots

  /** What a revision has at a relative page. */
  datatype Content = Absent | Stored(data: seq<bv8>, tag: nat)

  ghost function Reads(v: View, r: PagePtr, page: nat): Content
    requires r in v.forest.revs
  {
    var leaf := Lookup(v.forest, r, page);
    if leaf.info.page == 0 then Absent else Stored(leaf.data, leaf.info.tag)
  }

  /** The operation is on this page of this revision, which is open. */
  ghost predicate Hits(v: View, op: Operation, r: PagePtr, page: nat) {
    && (op.Write? || op.NewSegment? || op.SetTag?)
    && op.page == page && page < RELATIVE_PAGES && Named(v, op.branch, op.revision) == r && Open(v, r)
  }

  /** What the operation makes of a page that it is on: bytes and tags of a page that is there can be written, and one
      that is not there can be added, where the tree reaches it. */
  function After(op: Operation, inReach: bool, c: Content): Content {
    match op
    case Write(_, _, _, data) => if c.Stored? then c.(data := data) else c
    case NewSegment(_, _, _, data, tag) => if c.Absent? && inReach then Stored(data, tag) else c
    case SetTag(_, _, _, tag) => if c.Stored? then c.(tag := tag) else c
    case _ => c
  }

  /** The revision that a new one takes over, or NullPage if it starts empty. */
  ghost function Source(v: View, op: Operation): PagePtr {
    match op
    case CreateRevision(b, forceNoInherit) => if !forceNoInherit && b in v.chains then Head(v.chains[b]) else 0
    case Fork(b, revision) => Named(v, b, revision)
    case _ => 0
  }

  /** What revision r has at a page after j operations: what its source had when it was made, and what was written
      since. */
  ghost function History(run: seq<View>, ops: seq<Operation>, j: nat, r: PagePtr, page: nat): Content
    requires j < |run| && j <= |ops|
    decreases j
  {
    if j == 0 then (if r in run[0].forest.revs then Reads(run[0], r, page) else Absent)
    else
      var v, op := run[j - 1], ops[j - 1];
      if r !in v.forest.known then
        if Source(v, op) == 0 then Absent else History(run, ops, j - 1, Source(v, op), page)
      else
        var c := History(run, ops, j - 1, r, page);
        if Hits(v, op, r, page) then After(op, InReach(v, r, page), c) else c
  }

  // ----- one step -----

  lemma PresentIs(v: View, r: PagePtr, page: nat)
    requires r in v.forest.revs
    ensures Present(v.forest, r, page) <==> Reads(v, r, page).Stored?
  {
  }

  lemma StoresReads(v: View, w: View, r: PagePtr, page: nat, data: seq<bv8>, tag: nat, s: PagePtr, offset: nat)
    requires Stores(v, w, r, page, data, tag) && s in v.forest.known && s in v.forest.revs
    ensures s in w.forest.revs && Reads(w, s, offset) == if s == r && offset == page then Stored(data, tag)
          else Reads(v, s, offset)
  {
    hide Lookup;
  }

  lemma WriteReads(v: View, op: Operation, w: View, r: PagePtr, page: nat)
    requires op.Write? || op.NewSegment? || op.SetTag?
    requires Does(v, op, w) && r in v.forest.known && r in v.forest.revs
    ensures r in w.forest.revs
    ensures Reads(w, r, page)
         == if Hits(v, op, r, page) then After(op, InReach(v, r, page), Reads(v, r, page)) else Reads(v, r, page)
  {
    hide Lookup, Named, Stores, Reads, Present;
    var s := Named(v, op.branch, op.revision);
    if Open(v, s) {
      PresentIs(v, s, op.page);
      ReadsStored(v, s, op.page);
    }
    match op
    case Write(_, _, p, data) =>
      if CanWrite(v, s, p) {
        StoresReads(v, w, s, p, data, Lookup(v.forest, s, p).info.tag, r, page);
      }
    case NewSegment(_, _, p, data, tag) =>
      if CanAdd(v, s, p) {
        StoresReads(v, w, s, p, data, tag, r, page);
      }
    case SetTag(_, _, p, tag) =>
      if CanWrite(v, s, p) {
        StoresReads(v, w, s, p, Lookup(v.forest, s, p).data, tag, r, page);
      }
    case _ =>
  }

  lemma ReadsStored(v: View, r: PagePtr, page: nat)
    requires r in v.forest.revs
    ensures Reads(v, r, page).Stored? ==>
              Reads(v, r, page) == Stored(Lookup(v.forest, r, page).data, Lookup(v.forest, r, page).info.tag)
  {
  }

  lemma SameReads(v: View, w: View, r: PagePtr, page: nat)
    requires SameLookups(v.forest, w.forest) && r in v.forest.known && r in v.forest.revs && r in w.forest.revs
    ensures Reads(w, r, page) == Reads(v, r, page)
  {
    hide Lookup;
  }

  /** Links and flags of revision pages are no part of what is read. */
  lemma FlagsApart(f: Forest, f': Forest)
    requires f' == f.(revs := f'.revs)
    requires forall s :: s in f.revs && s in f'.revs ==>
               f'.revs[s] == f.revs[s].(last := f'.revs[s].last, writable := f'.revs[s].writable)
    ensures SameLookups(f, f')
  {
  }

  lemma FreedReads(f: Forest, f': Forest, rs: set<PagePtr>, r: PagePtr, page: nat)
    requires FreedExactly(f, f', rs) && r in f'.known && r in f'.revs
    ensures r in f.revs && Lookup(f', r, page) == Lookup(f, r, page)
  {
    hide Lookup;
  }

  /** The other operations change what no revision reads. */
  lemma OtherReads(v: View, op: Operation, w: View, r: PagePtr, page: nat)
    requires !op.Write? && !op.NewSegment? && !op.SetTag?
    requires Does(v, op, w) && r in v.forest.known && r in w.forest.known && r in v.forest.revs && r in w.forest.revs
    ensures Reads(w, r, page) == Reads(v, r, page)
  {
    hide Lookup, Named, Reads, SameLookups, FreedExactly, OwnWrites, Kept, Relinked, StillThere;
    match op
    case CreateRevision(b, forceNoInherit) =>
      if w != v {
        SameReads(v, w, r, page);
      }
    case Fork(b, revision) =>
      if w != v {
        SameReads(v, w, r, page);
      }
    case Fetch(b, revision, p, write) =>
      if w != v {
        SameReads(v, w, r, page);
      }
    case Commit(b, revision) =>
      if w != v {
        FlagsApart(v.forest, w.forest);
        SameReads(v, w, r, page);
      }
    case DropRange(b, from, to) =>
      if w != v {
        RelinkedReads(v.forest, w.forest, Kept(v.forest, v.chains[b], from, to));
        SameReads(v, w, r, page);
      }
    case DeleteBranch(b) =>
      if w != v {
        FreedReads(v.forest, w.forest, Linked(v.chains, Dependants(v.branches, b)), r, page);
        ReadsIs(v, r, page);
        ReadsIs(w, r, page);
      }
    case _ =>
  }

  lemma ReadsIs(v: View, r: PagePtr, page: nat)
    requires r in v.forest.revs
    ensures var leaf := Lookup(v.forest, r, page);
            Reads(v, r, page) == if leaf.info.page == 0 then Absent else Stored(leaf.data, leaf.info.tag)
  {
  }

  lemma RelinkedReads(f: Forest, f': Forest, chain: seq<PagePtr>)
    requires Relinked(f, f', chain)
    ensures SameLookups(f, f')
  {
    FlagsApart(f, f');
  }

  /** A revision that is new reads what its source reads. */
  lemma ArrivedReads(v: View, op: Operation, w: View, r: PagePtr, page: nat)
    requires Does(v, op, w) && Legal(v) && r !in v.forest.known && r in w.forest.known && r in w.forest.revs
    ensures var s := Source(v, op);
            if s == 0 then Reads(w, r, page) == Absent
            else s in v.forest.known && s in v.forest.revs && Reads(w, r, page) == Reads(v, s, page)
  {
    hide Inv, Lookup, SameLookups, OwnWrites, Kept, Relinked, StillThere, FreedExactly, Named, LineageOk, BranchesOk,
      WritesAt;
    match op
    case CreateRevision(b, forceNoInherit) =>
      ChainHead(v.forest, b, v.chains[b]);
    case Fork(b, revision) =>
      NamedIn(v, b, revision);
    case _ =>
      OnlyArrivals(v, op, w);
      assert false;
  }

  lemma OnlyArrivals(v: View, op: Operation, w: View)
    requires Does(v, op, w) && !op.CreateRevision? && !op.Fork?
    ensures w.forest.known <= v.forest.known
  {
    hide Lookup, SameLookups, Named, Kept;
  }

  // ----- whole runs -----

  lemma KnownInView(v: View, r: PagePtr)
    requires Legal(v) && r in v.forest.known
    ensures r in v.forest.revs
  {
  }

  /** At every moment of every run, every revision reads what the operations alone tell: sharing, stealing, forking and
      dropping are never seen. */
  lemma {:induction false} ReadsHistory(run: seq<View>, ops: seq<Operation>, j: nat, r: PagePtr, page: nat)
    requires RunOk(run, ops) && j < |run| && r in run[j].forest.known
    ensures r in run[j].forest.revs && Reads(run[j], r, page) == History(run, ops, j, r, page)
    decreases j
  {
    hide Legal, Does, Reads, Hits, Source, Evolves;
    EveryViewLegal(run, ops, j);
    KnownInView(run[j], r);
    if j > 0 {
      var v, op, w := run[j - 1], ops[j - 1], run[j];
      assert StepOk(v, op, w);
      EveryViewLegal(run, ops, j - 1);
      if r in v.forest.known {
        KnownInView(v, r);
        ReadsHistory(run, ops, j - 1, r, page);
        StepReads(v, op, w, r, page);
      } else {
        ArrivedReads(v, op, w, r, page);
        if Source(v, op) != 0 {
          ReadsHistory(run, ops, j - 1, Source(v, op), page);
        }
      }
    }
  }

  lemma StepReads(v: View, op: Operation, w: View, r: PagePtr, page: nat)
    requires Does(v, op, w) && r in v.forest.known && r in w.forest.known && r in v.forest.revs && r in w.forest.revs
    ensures Reads(w, r, page)
         == if Hits(v, op, r, page) then After(op, InReach(v, r, page), Reads(v, r, page)) else Reads(v, r, page)
  {
    hide Does, Reads, InReach, Named;
    if op.Write? || op.NewSegment? || op.SetTag? {
      WriteReads(v, op, w, r, page);
    } else {
      OtherReads(v, op, w, r, page);
    }
  }

  /** What was written last is read, as long as the revision is there: whatever else happens to it and to all others. */
  lemma {:induction false} LastWrittenIsRead(run: seq<View>, ops: seq<Operation>, i: nat, j: nat, r: PagePtr, page: nat)
    requires RunOk(run, ops) && i < j < |run| && ops[i].Write? && ops[i].page == page
    requires Named(run[i], ops[i].branch, ops[i].revision) == r && CanWrite(run[i], r, page)
    requires forall k :: i < k <= j ==> r in run[k].forest.known
    requires forall k :: i < k < j && Hits(run[k], ops[k], r, page) ==> !ops[k].Write?
    ensures r in run[j].forest.revs && Reads(run[j], r, page).Stored? && Reads(run[j], r, page).data == ops[i].data
    decreases j
  {
    hide Legal, Does, Reads, Evolves, Named, Present;
    EveryViewLegal(run, ops, j);
    KnownInView(run[j], r);
    var v, op, w := run[j - 1], ops[j - 1], run[j];
    assert StepOk(v, op, w);
    EveryViewLegal(run, ops, j - 1);
    KnownInView(v, r);
    StepReads(v, op, w, r, page);
    if i == j - 1 {
      PresentIs(v, r, page);
    } else {
      LastWrittenIsRead(run, ops, i, j - 1, r, page);
    }
  }
}
