/** A document: linked element segments, the edits on them, and the journal the edits leave. */
module Dom {
  import opened DomTree
  import opened DomViews
  import opened Outlines
  import opened Applying
  import opened Recording
  import opened Removal
  import opened Replay

  type SegmentPtr = nat

  datatype JournalItem = JournalItem(entry: Entry, next: SegmentPtr)

  type Items = map<SegmentPtr, JournalItem>

  // ----- the journal as a linked list -----

  ghost function ItemAt(order: seq<SegmentPtr>, k: nat): SegmentPtr {
    if k < |order| then order[k] else 0
  }

  /** The items in order, each pointing to the next; `start` is where the journal was reset by a fork. */
  ghost predicate JournalOk(items: Items, order: seq<SegmentPtr>, start: nat, firstAlloced: SegmentPtr,
      first: SegmentPtr, last: SegmentPtr, free: SegmentPtr)
  {
    && start <= |order| && 0 !in items && free > 0
    && (forall p :: p in items ==> p < free)
    && (forall k :: 0 <= k < |order| ==> order[k] in items && items[order[k]].next == ItemAt(order, k + 1))
    && (forall j, k :: 0 <= j < k < |order| ==> order[j] != order[k])
    && firstAlloced == ItemAt(order, 0) && first == ItemAt(order, start)
    && last == (if order == [] then 0 else order[|order| - 1])
  }

  ghost function EntriesFrom(items: Items, order: seq<SegmentPtr>, start: nat): seq<Entry>
    requires start <= |order| && forall k :: 0 <= k < |order| ==> order[k] in items
  {
    seq(|order| - start, k requires 0 <= k < |order| - start => items[order[start + k]].entry)
  }

  ghost function ItemsWith(items: Items, last: SegmentPtr, ptr: SegmentPtr, e: Entry): Items {
    var added := items[ptr := JournalItem(e, 0)];
    if last in added && last != 0 then added[last := added[last].(next := ptr)] else added
  }

  lemma AppendedAt(items: Items, order: seq<SegmentPtr>, start: nat, firstAlloced: SegmentPtr, first: SegmentPtr,
      last: SegmentPtr, ptr: SegmentPtr, e: Entry, k: nat)
    requires JournalOk(items, order, start, firstAlloced, first, last, ptr) && k <= |order|
    ensures var (items', p) := (ItemsWith(items, last, ptr, e), (order + [ptr])[k]);
            && p in items' && items'[p].next == ItemAt(order + [ptr], k + 1)
            && items'[p].entry == if k < |order| then items[order[k]].entry else e
  {
    hide EntriesFrom;
    if k < |order| {
      OldItem(items, order, start, firstAlloced, first, last, ptr, k);
      if k + 1 < |order| {
        assert ItemAt(order + [ptr], k + 1) == order[k + 1];
      }
    }
  }

  lemma OldItem(items: Items, order: seq<SegmentPtr>, start: nat, firstAlloced: SegmentPtr, first: SegmentPtr,
      last: SegmentPtr, ptr: SegmentPtr, k: nat)
    requires JournalOk(items, order, start, firstAlloced, first, last, ptr) && k < |order|
    ensures var p := order[k];
            && p in items && p != ptr && p != 0 && items[p].next == ItemAt(order, k + 1) && (order + [ptr])[k] == p
            && (p == last <==> k + 1 == |order|)
  {
  }

  lemma AppendedOrder(items: Items, order: seq<SegmentPtr>, start: nat, firstAlloced: SegmentPtr, first: SegmentPtr,
      last: SegmentPtr, ptr: SegmentPtr)
    requires JournalOk(items, order, start, firstAlloced, first, last, ptr)
    ensures forall j, k :: 0 <= j < k <= |order| ==> (order + [ptr])[j] != (order + [ptr])[k]
    ensures (if firstAlloced == 0 then ptr else firstAlloced) == ItemAt(order + [ptr], 0)
    ensures (if first == 0 then ptr else first) == ItemAt(order + [ptr], start)
  {
    assert forall k :: 0 <= k < |order| ==> order[k] in items && order[k] != ptr && order[k] != 0;
  }

  lemma Appended(items: Items, order: seq<SegmentPtr>, start: nat, firstAlloced: SegmentPtr, first: SegmentPtr,
      last: SegmentPtr, ptr: SegmentPtr, e: Entry)
    requires JournalOk(items, order, start, firstAlloced, first, last, ptr)
    ensures var items' := ItemsWith(items, last, ptr, e);
            && JournalOk(items', order + [ptr], start, if firstAlloced == 0 then ptr
                  else firstAlloced, if first == 0 then ptr else first, ptr, ptr + 1)
            && EntriesFrom(items', order + [ptr], start) == EntriesFrom(items, order, start) + [e]
  {
    hide ItemAt;
    var items' := ItemsWith(items, last, ptr, e);
    assert forall p :: p in items' ==> p < ptr + 1 && p != 0;
    AppendedOrder(items, order, start, firstAlloced, first, last, ptr);
    forall k | 0 <= k < |order| + 1
      ensures var p := (order + [ptr])[k];
              && p in items' && items'[p].next == ItemAt(order + [ptr], k + 1)
              && items'[p].entry == if k < |order| then items[order[k]].entry else e
    {
      AppendedAt(items, order, start, firstAlloced, first, last, ptr, e, k);
    }
  }

  /** `ptr` is the item that holds entry k since the fork, or null behind the last one. */
  ghost predicate ItemIs(items: Items, order: seq<SegmentPtr>, start: nat, ptr: SegmentPtr, k: nat) {
    && start + k <= |order| && ptr == ItemAt(order, start + k) && 0 !in items
    && (forall j :: 0 <= j < |order| ==> order[j] in items && items[order[j]].next == ItemAt(order, j + 1))
  }

  lemma FirstItem(items: Items, order: seq<SegmentPtr>, start: nat, firstAlloced: SegmentPtr, first: SegmentPtr,
      last: SegmentPtr, free: SegmentPtr)
    requires JournalOk(items, order, start, firstAlloced, first, last, free)
    ensures ItemIs(items, order, start, first, 0)
  {
  }

  lemma NextItem(items: Items, order: seq<SegmentPtr>, start: nat, ptr: SegmentPtr, k: nat)
    requires ItemIs(items, order, start, ptr, k)
    ensures ptr == 0 <==> start + k == |order|
    ensures ptr != 0 ==> ptr in items && ItemIs(items, order, start, items[ptr].next, k + 1)
    ensures |EntriesFrom(items, order, start)| == |order| - start
    ensures ptr != 0 ==> EntriesFrom(items, order, start)[k] == items[ptr].entry
  {
  }

  lemma IndexMore(nodes: Nodes, ids: map<ElementId, ElementId>, index: seq<ElementId>, x: ElementId, id: ElementId,
      nodes': Nodes)
    requires IndexOk(nodes, ids, index) && nodes'.Keys == nodes.Keys + {x} && id != 0
    ensures IndexOk(nodes', ids[x := id], index + [x])
  {
    assert forall k :: k in index + [x] <==> k in index || k == x;
  }

  lemma ForkJournal(items: Items, order: seq<SegmentPtr>, start: nat, firstAlloced: SegmentPtr, first: SegmentPtr,
      last: SegmentPtr, free: SegmentPtr)
    requires JournalOk(items, order, start, firstAlloced, first, last, free)
    ensures JournalOk(items, order, |order|, firstAlloced, 0, last, free) && EntriesFrom(items, order, |order|) == []
  {
  }

  // ----- what deleting leaves of ids and index -----

  /** The document without these elements. */
  ghost function Lessened(t: Target, gone: set<ElementId>): Target {
    Target(Without(t.o, gone), t.ids - gone, Minus(t.index, gone))
  }

  lemma NothingLess(t: Target)
    ensures Lessened(t, {}) == t
  {
    WithoutNone(t.o);
    MinusNone(t.index, {});
  }

  lemma LessTwice(t: Target, a: set<ElementId>, b: set<ElementId>)
    ensures Lessened(Lessened(t, a), b) == Lessened(t, a + b)
  {
    WithoutTwice(t.o, a, b);
    MinusTwice(t.index, a, b);
    assert t.ids - a - b == t.ids - (a + b);
  }

  lemma IndexLess(nodes: Nodes, ids: map<ElementId, ElementId>, index: seq<ElementId>, x: ElementId, nodes': Nodes)
    requires IndexOk(nodes, ids, index) && nodes'.Keys == nodes.Keys - {x}
    ensures IndexOk(nodes', ids - {x}, Minus(index, {x}))
  {
    forall k
      ensures k in Minus(index, {x}) <==> k in nodes'
    {
      MinusItems(index, {x}, k);
    }
  }

  lemma PrunedIs(nodes: Nodes, kids: Kids, rank: Rank, ids: map<ElementId, ElementId>, index: seq<ElementId>,
      x: ElementId, gone: set<ElementId>)
    requires TreeOk(nodes, kids, rank) && x in nodes && Beneath(ViewOf(nodes, kids), x, gone)
          && Closed(ViewOf(nodes, kids), gone, x)
    ensures var t := Target(ViewOf(nodes, kids), ids, index); Lessened(t, gone + {x}) == Pruned(t, x)
  {
    BeneathIsSubtree(nodes, kids, rank, x, gone);
  }

  lemma IdThere(nodes: Nodes, ids: map<ElementId, ElementId>, index: seq<ElementId>, x: ElementId)
    requires IndexOk(nodes, ids, index) && x in nodes
    ensures x in ids
  {
  }

  lemma CopiedText(nodes: Nodes, kids: Kids, ids: map<ElementId, ElementId>, index: seq<ElementId>, xk: ElementId)
    requires xk in nodes
    ensures var t := Target(ViewOf(nodes, kids), ids, index);
            xk in t.o.kind && xk in t.o.text && t.o.kind[xk] == nodes[xk].kind
            && NewText(t, xk) == (if nodes[xk].kind.Text? then nodes[xk].text else "")
  {
  }

  /** The items have been replayed on t0: the state is t, and what was told has grown by what the replay tells. */
  ghost predicate Played(t0: Target, entries: seq<Entry>, source: Target, t: Target, told0: seq<Entry>,
      told: seq<Entry>)
  {
    && Applies(t0, entries, source) && t == Replayed(t0, entries, source)
    && told == told0 + AllTold(t0, entries, source)
  }

  lemma PlayedNone(t: Target, source: Target, told: seq<Entry>)
    ensures Played(t, [], source, t, told, told)
  {
    NothingApplied(t, source);
  }

  lemma PlayedMore(t0: Target, before: seq<Entry>, e: Entry, source: Target, t: Target, t': Target, told0: seq<Entry>,
      told: seq<Entry>, told': seq<Entry>)
    requires Played(t0, before, source, t, told0, told) && ItemApplies(t, e, source) && t' == Apply(t, e, source)
    requires told' == told + Tells(t, e, source) + if Takes(t, e, source) then [e] else []
    ensures Played(t0, before + [e], source, t', told0, told')
  {
    hide ItemApplies, Apply, Tells, Takes, Applies, Replayed, AllTold;
    AppliesMore(t0, before, e, source);
    ToldMore(t0, before, e, source);
  }

  lemma PlayedIs(t0: Target, entries: seq<Entry>, source: Target, t: Target, told0: seq<Entry>, told: seq<Entry>)
    requires Played(t0, entries, source, t, told0, told)
    ensures Applies(t0, entries, source) && t == Replayed(t0, entries, source)
         && told == told0 + AllTold(t0, entries, source)
  {
  }

  lemma PlayedNot(t0: Target, before: seq<Entry>, e: Entry, source: Target, t: Target, told0: seq<Entry>,
      told: seq<Entry>)
    requires Played(t0, before, source, t, told0, told) && !ItemApplies(t, e, source)
    ensures !Applies(t0, before + [e], source)
  {
    hide ItemApplies, Apply, Applies, Replayed, AllTold;
    AppliesMore(t0, before, e, source);
  }

  class Document {
    var nodes: Nodes
    var ids: map<ElementId, ElementId>   // the id that an element carries
    var index: seq<ElementId>            // the elements by id, in the order of their creation
    var items: Items
    var firstAllocedJournalItem: SegmentPtr
    var firstJournalItem: SegmentPtr
    var lastAllocedJournalItem: SegmentPtr
    var freePtr: SegmentPtr
    ghost var kids: Kids
    ghost var rank: Rank
    ghost var order: seq<SegmentPtr>
    ghost var start: nat
    ghost var run: seq<Outline>    // every state since the fork
    ghost var steps: seq<Step>     // and the edits between them

    ghost predicate WellLinked()
      reads this
    {
      TreeOk(nodes, kids, rank)
    }

    ghost predicate Journaled()
      reads this
    {
      JournalOk(items, order, start, firstAllocedJournalItem, firstJournalItem, lastAllocedJournalItem, freePtr)
    }

    ghost predicate Valid()
      reads this
    {
      WellLinked() && Journaled() && Indexed()
    }

    ghost predicate Indexed()
      reads `nodes, `ids, `index
    {
      IndexOk(nodes, ids, index)
    }

    ghost function View(): Outline
      reads this
    {
      ViewOf(nodes, kids)
    }

    ghost function State(): Target
      reads this
    {
      Target(View(), ids, index)
    }

    ghost function Entries(): seq<Entry>
      requires Journaled()
      reads this
    {
      EntriesFrom(items, order, start)
    }

    /** The recorded edits lead from the fork to the present, and the journal is theirs. */
    ghost predicate Recorded()
      requires Journaled()
      reads this
    {
      RecordOk(run, steps, Entries(), State())
    }

    /** A fork reads what the parent wrote and starts an empty journal behind the parent's items. */
    constructor Fork(parent: Document)
      requires parent.Valid()
      ensures Valid() && nodes == parent.nodes && State() == parent.State() && Entries() == []
      ensures run == [parent.View()] && steps == [] && (Plain(parent.State(), parent.View()) ==> Recorded())
    {
      hide TreeOk, JournalOk, EntriesFrom, ViewOf, RecordOk, Plain, IndexOk;
      ViewOk(parent.nodes, parent.kids, parent.rank);
      ForkJournal(parent.items, parent.order, parent.start, parent.firstAllocedJournalItem, parent.firstJournalItem,
                  parent.lastAllocedJournalItem, parent.freePtr);
      ForkRecorded(Target(ViewOf(parent.nodes, parent.kids), parent.ids, parent.index));
      nodes, kids, rank, ids, index := parent.nodes, parent.kids, parent.rank, parent.ids, parent.index;
      items, order, start := parent.items, parent.order, |parent.order|;
      firstAllocedJournalItem, lastAllocedJournalItem := parent.firstAllocedJournalItem, parent.lastAllocedJournalItem;
      firstJournalItem := 0;
      freePtr := parent.freePtr;
      run, steps := [ViewOf(parent.nodes, parent.kids)], [];
    }

    // ----- the journal -----

    /** appendJournal with appendJournalItem: the new item goes behind the last one and may be the first since the fork.
        */
    method AppendJournal(e: Entry)
      requires Journaled()
      modifies `items, `firstAllocedJournalItem, `firstJournalItem, `lastAllocedJournalItem, `freePtr, `order
      ensures Journaled() && Entries() == old(Entries()) + [e]
      ensures items == ItemsWith(old(items), old(lastAllocedJournalItem), old(freePtr), e)
            && order == old(order) + [old(freePtr)]
    {
      var ptr := freePtr;
      freePtr := freePtr + 1;
      items := items[ptr := JournalItem(e, 0)];
      if lastAllocedJournalItem != 0 {
        items := items[lastAllocedJournalItem := items[lastAllocedJournalItem].(next := ptr)];
      }
      if firstAllocedJournalItem == 0 {
        firstAllocedJournalItem := ptr;
      }
      if firstJournalItem == 0 {
        firstJournalItem := ptr;
      }
      lastAllocedJournalItem := ptr;
      order := order + [ptr];
      Appended(old(items), old(order), start, old(firstAllocedJournalItem), old(firstJournalItem),
          old(lastAllocedJournalItem), ptr, e);
    }

    /** The ghost side of an edit: the run grows by one step. */
    ghost method Record(s: Step, was: Target, told: seq<Entry>)
      requires Journaled() && StepOk(was.o, s, View()) && StepIds(was, s, State())
      modifies `run, `steps
      ensures run == old(run) + [View()] && steps == old(steps) + [s]
      ensures RecordOk(old(run), old(steps), told, was) && Entries() == told + EntryIn(was, s) ==>
            ((s.New? ==> Unused(old(run), s.x)) ==> Recorded())
    {
      hide StepOk, StepIds, EntryIn, EntriesFrom, JournalOk, ViewOf, RecordOk, Unused;
      if RecordOk(run, steps, told, was) && Entries() == told + EntryIn(was, s) && (s.New? ==> Unused(run, s.x)) {
        RecordMore(run, steps, told, was, s, State());
      }
      run, steps := run + [View()], steps + [s];
    }

    // ----- finding and creating -----

    /** getElementById: the first element of the index that carries the id. */
    method GetElementById(id: ElementId) returns (x: ElementId)
      requires WellLinked() && Indexed()
      ensures x == Found(State(), id) && (x != 0 <==> Has(State(), id)) && (x != 0 ==> x in nodes && ids[x] == id)
    {
      hide TreeOk, ViewOf;
      FoundIs(nodes, kids, rank, ids, index, id);
      ViewDomains(nodes, kids, rank);
      var i := 0;
      assert index[0..] == index;
      while i < |index|
        invariant i <= |index| && Find(ids, index[i..], id) == Find(ids, index, id)
      {
        assert index[i..][1..] == index[i + 1..];
        if ids[index[i]] == id {
          return index[i];
        }
        i := i + 1;
      }
      x := 0;
    }

    /** createElement and createTextualNode with a given id: the new element is detached, without children or text.
        Nothing asks whether the id is in use. */
    method CreateElement(kind: Kind, id: ElementId) returns (x: ElementId)
      requires Valid() && id != 0
      modifies `nodes, `ids, `index, `kids, `rank, `run, `steps
      ensures Valid() && x == FirstFree(old(nodes).Keys, id) && x !in old(nodes) && Entries() == old(Entries())
      ensures State() == Target(Added(old(View()), x, kind, ""), old(ids)[x := id], old(index) + [x])
      ensures nodes == old(nodes)[x := Node(kind, 0, 0, 0, 0, 0, "")] && kids == old(kids)[x := []]
      ensures run == old(run) + [View()] && steps == old(steps) + [New(x, kind, "")]
      ensures old(Recorded()) && Unused(old(run), id) ==> Recorded() && x == id
    {
      hide TreeOk, JournalOk, EntriesFrom, StepOk, ViewOf, Added, RecordOk, IndexOk, Unused, FirstFree;
      ghost var was, told := State(), Entries();
      x := Allocate(kind, id);
      RecordCreated(x, kind, id, was, told);
    }

    /** A new segment, and its place in the index. */
    method Allocate(kind: Kind, id: ElementId) returns (x: ElementId)
      requires WellLinked() && Indexed() && id != 0
      modifies `nodes, `ids, `index, `kids, `rank
      ensures WellLinked() && Indexed() && x == FirstFree(old(nodes).Keys, id)
            && x == FirstFree(old(View()).kids.Keys, id) && x !in old(nodes)
      ensures ids == old(ids)[x := id] && index == old(index) + [x]
      ensures nodes == old(nodes)[x := Node(kind, 0, 0, 0, 0, 0, "")] && kids == old(kids)[x := []]
      ensures View() == Added(old(View()), x, kind, "") && StepOk(old(View()), New(x, kind, ""), View())
    {
      hide TreeOk, StepOk, ViewOf, Added, IndexOk;
      x := FirstFree(nodes.Keys, id);
      ViewDomains(nodes, kids, rank);
      CreateKeeps(nodes, kids, rank, x, kind, "");
      CreateView(nodes, kids, rank, x, kind);
      nodes := nodes[x := Node(kind, 0, 0, 0, 0, 0, "")];
      ids := ids[x := id];
      index := index + [x];
      kids := kids[x := []];
      rank := rank[x := 0];
      IndexMore(old(nodes), old(ids), old(index), x, id, nodes);
    }

    /** An element created under an unused id is recorded. */
    ghost method RecordCreated(x: ElementId, kind: Kind, id: ElementId, was: Target, told: seq<Entry>)
      requires Journaled() && StepOk(was.o, New(x, kind, ""), View()) && Entries() == told
      requires ids == was.ids[x := id] && index == was.index + [x] && x == FirstFree(was.o.kids.Keys, id)
      modifies `run, `steps
      ensures run == old(run) + [View()] && steps == old(steps) + [New(x, kind, "")]
      ensures RecordOk(old(run), old(steps), told, was) && Unused(old(run), id) ==> Recorded() && x == id
    {
      hide StepOk, ViewOf, JournalOk, EntriesFrom;
      assert told + [] == told;
      if RecordOk(run, steps, told, was) && Unused(run, id) {
        assert id !in run[|steps|].kids;
        Record(New(x, kind, ""), was, told);
      } else {
        run, steps := run + [View()], steps + [New(x, kind, "")];
      }
    }

    // ----- inserting -----

    /** The ghost side of linking x in as child n of f. */
    ghost method Hang(was: Nodes, f: ElementId, x: ElementId, n: nat)
      requires CanHang(was, kids, rank, f, x) && n <= |kids[f]|
      requires nodes == Linked(was, f, At(kids[f], n - 1), At(kids[f], n), x)
      modifies `kids, `rank
      ensures WellLinked() && View() == Put(ViewOf(was, old(kids)), f, n, x)
    {
      hide FatherOk, LinkedOk, Acyclic, Under, Linked, RankAfter, InsertAt;
      LinkKeeps(was, kids, rank, f, x, n);
      LinkedFathers(was, f, At(kids[f], n - 1), At(kids[f], n), x);
      ghost var before := kids;
      rank := RankAfter(was, rank, f, x);
      kids := kids[f := InsertAt(kids[f], n, x)];
      SameContents(was, nodes, before, kids);
    }

    /** insertChild without the journal: x comes before all children of me. */
    method LinkFirst(me: ElementId, x: ElementId)
      requires CanHang(nodes, kids, rank, me, x)
      modifies `nodes, `kids, `rank
      ensures WellLinked() && nodes.Keys == old(nodes).Keys && View() == Put(old(View()), me, 0, x)
    {
      hide TreeOk, FatherOk, LinkedOk, Acyclic, Under, CanHang, ViewOf, Put;
      HangFacts(nodes, kids, rank, me, x, 0);
      ghost var was := nodes;
      var oldChild := nodes[me].child;
      if oldChild != 0 {
        nodes := nodes[oldChild := nodes[oldChild].(elder := x)];
      }
      nodes := nodes[x := nodes[x].(father := me)];
      if oldChild != 0 {
        nodes := nodes[x := nodes[x].(younger := oldChild)];
      }
      nodes := nodes[me := nodes[me].(child := x)];
      if nodes[me].lastChild == 0 {
        nodes := nodes[me := nodes[me].(lastChild := x)];
      }
      assert nodes == Linked(was, me, 0, oldChild, x);
      Hang(was, me, x, 0);
    }

    /** insertAfter without the journal: x comes right behind me. */
    method LinkBehind(me: ElementId, x: ElementId, ghost k: nat)
      requires BesideOk(nodes, kids, rank, me, x, k)
      modifies `nodes, `kids, `rank
      ensures WellLinked() && nodes.Keys == old(nodes).Keys
            && View() == Put(old(View()), old(nodes[me].father), k + 1, x)
    {
      hide TreeOk, FatherOk, LinkedOk, Acyclic, Under, CanHang, ViewOf, Put, BesideOk;
      BehindFacts(nodes, kids, rank, me, x, k);
      ghost var was := nodes;
      var f, younger := nodes[me].father, nodes[me].younger;
      HangFacts(nodes, kids, rank, f, x, k + 1);
      if younger != 0 {
        nodes := nodes[younger := nodes[younger].(elder := x)];
      } else {
        nodes := nodes[f := nodes[f].(lastChild := x)];
      }
      nodes := nodes[x := nodes[x].(father := f, elder := me)];
      if younger != 0 {
        nodes := nodes[x := nodes[x].(younger := younger)];
      }
      nodes := nodes[me := nodes[me].(younger := x)];
      assert nodes == Linked(was, f, me, younger, x);
      Hang(was, f, x, k + 1);
    }

    /** appendLastChild without the journal. */
    method LinkLast(me: ElementId, x: ElementId)
      requires CanHang(nodes, kids, rank, me, x)
      modifies `nodes, `kids, `rank
      ensures WellLinked() && nodes.Keys == old(nodes).Keys && View() == Put(old(View()), me, |old(kids[me])|, x)
    {
      hide TreeOk, FatherOk, LinkedOk, Acyclic, Under, CanHang, ViewOf, Put;
      InKids(nodes, kids, rank, me, x);
      HangFacts(nodes, kids, rank, me, x, |kids[me]|);
      ghost var was := nodes;
      var lastChild := nodes[me].lastChild;
      if lastChild != 0 {
        nodes := nodes[x := nodes[x].(father := me, elder := lastChild)];
        nodes := nodes[lastChild := nodes[lastChild].(younger := x)];
        nodes := nodes[me := nodes[me].(lastChild := x)];
      } else {
        nodes := nodes[x := nodes[x].(father := me)];
        nodes := nodes[me := nodes[me].(child := x, lastChild := x)];
      }
      assert nodes == Linked(was, me, lastChild, 0, x);
      Hang(was, me, x, |kids[me]|);
    }

    /** insertBefore without the journal: through the father, or behind the elder. */
    method LinkBefore(me: ElementId, x: ElementId, ghost k: nat)
      requires BesideOk(nodes, kids, rank, me, x, k)
      modifies `nodes, `kids, `rank
      ensures WellLinked() && nodes.Keys == old(nodes).Keys && View() == Put(old(View()), old(nodes[me].father), k, x)
    {
      hide TreeOk, CanHang, ViewOf, Put, BesideOk, StepOk;
      BehindFacts(nodes, kids, rank, me, x, k);
      BeforeStep(nodes, kids, rank, me, x, k);
      if nodes[me].elder == 0 {
        LinkFirst(nodes[me].father, x);
      } else {
        LinkBehind(nodes[me].elder, x, k - 1);
      }
    }

    method InsertChild(me: ElementId, x: ElementId)
      requires Valid() && CanHang(nodes, kids, rank, me, x)
      modifies this
      ensures Valid() && StepOk(old(View()), Ins(Mode.InsertChild, me, x), View())
      ensures ids == old(ids) && index == old(index)
            && Entries() == old(Entries()) + [InsertItem(Mode.InsertChild, ids[me], ids[x])]
      ensures run == old(run) + [View()] && steps == old(steps) + [Ins(Mode.InsertChild, me, x)]
            && (old(Recorded()) ==> Recorded())
    {
      hide TreeOk, CanHang, Detached, ViewOf, Put, StepOk, RecordOk, JournalOk, EntriesFrom, IsLinked, Place, BesideOk;
      ghost var was, told := State(), Entries();
      InKids(nodes, kids, rank, me, x);
      FirstStep(nodes, kids, rank, me, x);
      LinkFirst(me, x);
      AppendJournal(InsertItem(Mode.InsertChild, ids[me], ids[x]));
      Record(Ins(Mode.InsertChild, me, x), was, told);
    }

    method AppendLastChild(me: ElementId, x: ElementId)
      requires Valid() && CanHang(nodes, kids, rank, me, x)
      modifies this
      ensures Valid() && StepOk(old(View()), Ins(AppendChild, me, x), View())
      ensures ids == old(ids) && index == old(index)
            && Entries() == old(Entries()) + [InsertItem(AppendChild, ids[me], ids[x])]
      ensures run == old(run) + [View()] && steps == old(steps) + [Ins(AppendChild, me, x)]
            && (old(Recorded()) ==> Recorded())
    {
      hide TreeOk, CanHang, Detached, ViewOf, Put, StepOk, RecordOk, JournalOk, EntriesFrom, IsLinked, Place, BesideOk;
      ghost var was, told := State(), Entries();
      InKids(nodes, kids, rank, me, x);
      LastStep(nodes, kids, rank, me, x);
      LinkLast(me, x);
      AppendJournal(InsertItem(AppendChild, ids[me], ids[x]));
      Record(Ins(AppendChild, me, x), was, told);
    }

    method InsertAfter(me: ElementId, x: ElementId)
      requires Valid() && me in nodes && nodes[me].father != 0 && CanHang(nodes, kids, rank, nodes[me].father, x)
            && x != me
      modifies this
      ensures Valid() && StepOk(old(View()), Ins(Mode.InsertAfter, me, x), View())
      ensures ids == old(ids) && index == old(index)
            && Entries() == old(Entries()) + [InsertItem(Mode.InsertAfter, ids[me], ids[x])]
      ensures run == old(run) + [View()] && steps == old(steps) + [Ins(Mode.InsertAfter, me, x)]
            && (old(Recorded()) ==> Recorded())
    {
      hide TreeOk, CanHang, Detached, ViewOf, Put, StepOk, RecordOk, JournalOk, EntriesFrom, IsLinked, Place, BesideOk;
      ghost var was, told := State(), Entries();
      InKids(nodes, kids, rank, nodes[me].father, x);
      ghost var k := Beside(nodes, kids, rank, me, x);
      BehindStep(nodes, kids, rank, me, x, k);
      LinkBehind(me, x, k);
      AppendJournal(InsertItem(Mode.InsertAfter, ids[me], ids[x]));
      Record(Ins(Mode.InsertAfter, me, x), was, told);
    }

    /** Goes through the father or the elder, and journals its own operation only. */
    method InsertBefore(me: ElementId, x: ElementId)
      requires Valid() && me in nodes && nodes[me].father != 0 && CanHang(nodes, kids, rank, nodes[me].father, x)
            && x != me
      modifies this
      ensures Valid() && StepOk(old(View()), Ins(Mode.InsertBefore, me, x), View())
      ensures ids == old(ids) && index == old(index)
            && Entries() == old(Entries()) + [InsertItem(Mode.InsertBefore, ids[me], ids[x])]
      ensures run == old(run) + [View()] && steps == old(steps) + [Ins(Mode.InsertBefore, me, x)]
            && (old(Recorded()) ==> Recorded())
    {
      hide TreeOk, CanHang, Detached, ViewOf, Put, StepOk, RecordOk, JournalOk, EntriesFrom, IsLinked, Place, BesideOk;
      ghost var was, told := State(), Entries();
      InKids(nodes, kids, rank, nodes[me].father, x);
      ghost var k := Beside(nodes, kids, rank, me, x);
      BeforeStep(nodes, kids, rank, me, x, k);
      LinkBefore(me, x, k);
      AppendJournal(InsertItem(Mode.InsertBefore, ids[me], ids[x]));
      Record(Ins(Mode.InsertBefore, me, x), was, told);
    }

    // ----- texts -----

    /** setText; only the text of an element with a father is journaled. */
    method SetText(x: ElementId, text: string)
      requires Valid() && x in nodes && Textual(nodes[x].kind)
      modifies this
      ensures Valid() && View() == old(View()).(text := old(View()).text[x := text])
            && StepOk(old(View()), Txt(x, text), View())
      ensures ids == old(ids) && index == old(index)
            && Entries() == old(Entries()) + EntryIn(old(State()), Txt(x, text))
      ensures nodes == old(nodes)[x := old(nodes)[x].(text := text)] && kids == old(kids) && rank == old(rank)
      ensures run == old(run) + [View()] && steps == old(steps) + [Txt(x, text)] && (old(Recorded()) ==> Recorded())
    {
      hide TreeOk, JournalOk, EntriesFrom, StepOk, RecordOk, ViewOf, IsLinked;
      ghost var was, told := State(), Entries();
      assert told + [] == told;
      RetextKeeps(nodes, kids, rank, x, text);
      TextView(nodes, kids, rank, x, text);
      nodes := nodes[x := nodes[x].(text := text)];
      if nodes[x].father != 0 {
        AppendJournal(TextItem(ids[x]));
      }
      Record(Txt(x, text), was, told);
    }

    // ----- deleting -----

    /** unlinkElementFromFather: the neighbours close the gap. */
    method UnlinkElementFromFather(me: ElementId) returns (ghost n: nat)
      requires WellLinked() && me in nodes && nodes[me].father != 0
      modifies `nodes, `kids
      ensures WellLinked() && Detached(nodes, me) && nodes.Keys == old(nodes).Keys
      ensures old(ChildAt(nodes, kids, rank, me, n))
      ensures kids == old(kids)[old(nodes[me].father) := RemoveAt(old(kids[nodes[me].father]), n)]
      ensures forall c :: c in nodes ==> nodes[c].kind == old(nodes)[c].kind && nodes[c].text == old(nodes)[c].text
    {
      hide TreeOk, FatherOk, LinkedOk, Acyclic, RemoveAt, ChildAt;
      ghost var was := nodes;
      n := PlaceOf(nodes, kids, rank, me);
      UnlinkFacts(nodes, kids, rank, me, n);
      UnlinkKeeps(nodes, kids, rank, me, n);
      UnlinkedFathers(nodes, me);
      var f, elder, younger := nodes[me].father, nodes[me].elder, nodes[me].younger;
      if nodes[f].child == me {
        nodes := nodes[f := nodes[f].(child := younger)];
      }
      if nodes[f].lastChild == me {
        nodes := nodes[f := nodes[f].(lastChild := elder)];
      }
      if elder != 0 {
        nodes := nodes[elder := nodes[elder].(younger := younger)];
      }
      if younger != 0 {
        nodes := nodes[younger := nodes[younger].(elder := elder)];
      }
      nodes := nodes[me := nodes[me].(father := 0, elder := 0, younger := 0)];
      assert nodes == Unlinked(was, me);
      kids := kids[f := RemoveAt(kids[f], n)];
    }

    /** A move begins: the element leaves its father, and the journal says nothing of it. */
    method Unlink(me: ElementId)
      requires Valid() && me in nodes && nodes[me].father != 0
      modifies this
      ensures Valid() && Detached(nodes, me) && StepOk(old(View()), Step.Unlink(me), View())
      ensures ids == old(ids) && index == old(index) && Entries() == old(Entries())
      ensures run == old(run) + [View()] && steps == old(steps) + [Step.Unlink(me)] && (old(Recorded()) ==> Recorded())
    {
      hide TreeOk, ChildAt, RemoveAt, JournalOk, EntriesFrom, StepOk, RecordOk, ViewOf;
      ghost var was, told := State(), Entries();
      assert told + [] == told;
      ghost var n := UnlinkElementFromFather(me);
      UnlinkView(old(nodes), old(kids), rank, me, n, nodes);
      Record(Step.Unlink(me), was, told);
    }

    /** deleteChildren: deletes the first child until there is none. */
    method DeleteChildren(x: ElementId) returns (ghost gone: set<ElementId>)
      requires Valid() && x in nodes && !Textual(nodes[x].kind)
      modifies this
      ensures Valid() && rank == old(rank) && x in nodes && kids[x] == [] && Beneath(old(View()), x, gone)
      ensures State() == Lessened(old(State()), gone)
      ensures Removals(old(run), old(steps), run, steps) && (old(Recorded()) ==> Recorded())
      ensures steps == old(steps) + Removed(OrderBelow(old(kids), x))
            && Entries() == old(Entries()) + RemovalItems(old(ids), OrderBelow(old(kids), x))
      decreases Top(rank) - rank[x], 0
    {
      hide TreeOk, JournalOk, EntriesFrom, RecordOk, StepOk, ViewOf, Without, Closed, Beneath, Removals, OutlineOk,
        Minus, IndexOk, Deleted, Order, OrderBelow, Removed, RemovalItems, Ranks;
      TreeRanks(nodes, kids, rank);
      ViewKids(nodes, kids, rank, {});
      NoneDeleted(kids, rank, ids, x, steps, Entries());
      ghost var k: nat := 0;
      ghost var was := State();
      gone := {};
      NothingYet(View(), x, run, steps);
      NothingLess(was);
      var child := nodes[x].child;
      while child != 0
        invariant Valid() && rank == old(rank) && x in nodes && child == nodes[x].child
              && State() == Lessened(was, gone)
        invariant Beneath(was.o, x, gone) && Removals(old(run), old(steps), run, steps)
              && (old(Recorded()) ==> Recorded())
        invariant Deleted(old(kids), rank, old(ids), x, k, kids, old(steps), steps, old(Entries()), Entries())
        decreases kids.Keys
      {
        FirstChild(nodes, kids, rank, x);
        ghost var before, listed, run1, steps1, told1 := nodes, kids, run, steps, Entries();
        ghost var rest := DeleteElement(child);
        NextChild(was.o, x, gone, before, listed, rank, child, rest);
        KeysGone(before, listed, nodes, kids, rank, rest + {child});
        LessTwice(was, gone, rest + {child});
        assert gone + (rest + {child}) == gone + rest + {child};
        RemovalsJoin(old(run), old(steps), run1, steps1, run, steps);
        NextDeleted(old(nodes), old(kids), rank, old(ids), x, k, gone, before, listed, rest, nodes, kids, old(steps),
                    steps1, steps, old(Entries()), told1, Entries());
        k := k + 1;
        gone := gone + rest + {child};
        child := nodes[x].child;
      }
      NoChildren(nodes, kids, rank, x);
      AllDeleted(old(kids), rank, old(ids), x, k, kids, old(steps), steps, old(Entries()), Entries());
    }

    /** deleteElement: children first, each removal is journaled before the element leaves its father and is freed.
        What goes is exactly the subtree, from the tree and from the index. */
    method DeleteElement(x: ElementId) returns (ghost gone: set<ElementId>)
      requires Valid() && x in nodes && nodes[x].father != 0
      modifies this
      ensures Valid() && rank == old(rank) && State() == Pruned(old(State()), x)
      ensures Beneath(old(View()), x, gone) && Closed(old(View()), gone, x)
            && State() == Lessened(old(State()), gone + {x})
      ensures Removals(old(run), old(steps), run, steps) && (old(Recorded()) ==> Recorded())
      ensures steps == old(steps) + Removed(Order(old(kids), x))
            && Entries() == old(Entries()) + RemovalItems(old(ids), Order(old(kids), x))
      decreases Top(rank) - rank[x], 1
    {
      hide TreeOk, JournalOk, EntriesFrom, RecordOk, StepOk, ViewOf, Without, Cut, Closed, Beneath, Removals, OutlineOk,
        Minus, IndexOk, Order, OrderBelow, Removed, RemovalItems, Ranks;
      TreeRanks(nodes, kids, rank);
      IdThere(nodes, ids, index, x);
      gone := {};
      NothingYet(View(), x, run, steps);
      NothingLess(State());
      Childless(nodes, kids, rank, x);
      if !Textual(nodes[x].kind) {
        gone := DeleteChildren(x);
      } else {
        NoneBelow(kids, rank, ids, x, steps, Entries());
      }
      NotGone(old(View()), x, gone);
      SelfDeleted(old(kids), rank, old(ids), x, gone);
      StillHangs(old(nodes), old(kids), nodes, kids, rank, x, gone);
      ghost var run1, steps1 := run, steps;
      Free(x, old(nodes), old(kids), gone);
      LessTwice(old(State()), gone, {x});
      PrunedIs(old(nodes), old(kids), rank, old(ids), old(index), x, gone);
      RemovalsOne(run1, steps1, View(), x);
      RemovalsJoin(old(run), old(steps), run1, steps1, run, steps);
    }

    /** The end of deleteElement: journal, unlink, take out of the index, free. */
    method Free(x: ElementId, ghost nodes0: Nodes, ghost kids0: Kids, ghost gone: set<ElementId>)
      requires Valid() && x in nodes && nodes[x].father != 0 && kids[x] == []
      requires TreeOk(nodes0, kids0, rank) && x in nodes0 && Beneath(ViewOf(nodes0, kids0), x, gone)
            && Closed(ViewOf(nodes0, kids0), gone, x)
      requires View() == Without(ViewOf(nodes0, kids0), gone)
      modifies this
      ensures Valid() && rank == old(rank)
            && View() == Cut(ViewOf(nodes0, kids0), x) == Without(ViewOf(nodes0, kids0), gone + {x})
      ensures ids == old(ids) - {x} && index == Minus(old(index), {x})
      ensures StepOk(old(View()), Rem(x), View()) && Entries() == old(Entries()) + EntryIn(old(State()), Rem(x))
      ensures run == old(run) + [View()] && steps == old(steps) + [Rem(x)] && (old(Recorded()) ==> Recorded())
    {
      hide TreeOk, JournalOk, EntriesFrom, RecordOk, StepOk, ViewOf, Dropped, Without, Cut, Beneath, Closed, OutlineOk,
        Minus;
      ghost var was, told := State(), Entries();
      AppendJournal(RemoveItem(ids[x]));
      ghost var f, n := Destroy(x);
      LastToGo(nodes0, kids0, rank, x, gone, was.o, f, n);
      Record(Rem(x), was, told);
    }

    /** Unlinks an element without children, takes it out of the index and frees it. */
    method Destroy(x: ElementId) returns (ghost f: ElementId, ghost n: nat)
      requires WellLinked() && Indexed() && x in nodes && nodes[x].father != 0 && kids[x] == []
      modifies `nodes, `ids, `index, `kids
      ensures WellLinked() && Indexed() && ids == old(ids) - {x} && index == Minus(old(index), {x})
      ensures OutlineOk(old(View())) && f in old(View()).kids && n < |old(View()).kids[f]|
            && old(View()).kids[f][n] == x && f != x
      ensures View() == Dropped(old(View()), f, n, x) && StepOk(old(View()), Rem(x), View())
    {
      hide TreeOk, ChildAt, StepOk, ViewOf, Dropped, RemoveAt, OutlineOk, Minus, IndexOk;
      f := nodes[x].father;
      FatherIn(nodes, kids, rank, x);
      n := UnlinkElementFromFather(x);
      FreeView(old(nodes), old(kids), rank, x, n, nodes);
      DestroyKeeps(nodes, kids, rank, x);
      index := Minus(index, {x});
      nodes := nodes - {x};
      ids := ids - {x};
      kids := kids - {x};
      IndexLess(old(nodes), old(ids), old(index), x, nodes);
    }

    // ----- replaying -----

    /** The insert that a journal item names. */
    method InsertBy(mode: Mode, b: ElementId, x: ElementId)
      requires Valid() && b in nodes && x in nodes && b != x && Detached(nodes, x) && kids[x] == []
            && HasRoom(nodes, mode, b)
      modifies this
      ensures Valid() && ids == old(ids) && index == old(index) && StepOk(old(View()), Ins(mode, b, x), View())
      ensures b in ids && x in ids && Entries() == old(Entries()) + [InsertItem(mode, ids[b], ids[x])]
    {
      hide TreeOk, JournalOk, EntriesFrom, RecordOk, StepOk, ViewOf, CanHang;
      IdThere(nodes, ids, index, b);
      IdThere(nodes, ids, index, x);
      ReadyToHang(nodes, kids, rank, mode, b, x);
      match mode
      case InsertChild => InsertChild(b, x);
      case AppendChild => AppendLastChild(b, x);
      case InsertBefore => InsertBefore(b, x);
      case InsertAfter => InsertAfter(b, x);
    }

    /** A detached copy of an element of another document: with the id, and with the text if it is a text node. */
    method Copy(kind: Kind, id: ElementId, text: string) returns (x: ElementId)
      requires Valid() && id != 0
      modifies this
      ensures Valid() && x == FirstFree(old(nodes).Keys, id) && x !in old(nodes)
      ensures State()
            == Target(Added(old(View()), x, kind, if kind.Text? then text else ""), old(ids)[x := id], old(index) + [x])
      ensures x in nodes && Detached(nodes, x) && kids[x] == []
            && forall c :: c in old(nodes) ==> c in nodes && nodes[c] == old(nodes[c])
      ensures Entries() == old(Entries())
    {
      hide TreeOk, JournalOk, EntriesFrom, RecordOk, StepOk, ViewOf, IndexOk, IsLinked;
      x := CreateElement(kind, id);
      if kind.Text? {
        ViewLinked(nodes, kids, rank, x);
        SetText(x, text);
      }
    }

    /** applyJournalCreateElement: a copy of the source's element, with the id of the item, comes next to or into the
        base; an element that carries the id already stays as it is. */
    method ApplyCreate(mode: Mode, b: ElementId, id: ElementId, xk: ElementId, source: Document) returns (ok: bool)
      requires Valid() && source.Valid() && source != this && b in nodes && xk in source.nodes && id != 0
      modifies this
      ensures ok <==> CanPlace(old(View()), mode, b)
      ensures ok ==>
            Valid() && State()
            == Created(old(State()), mode, b, id, MadeFrom(source.nodes[xk].kind), NewText(source.State(), xk))
      ensures ok ==> b in old(ids) && Entries() == old(Entries()) + [InsertItem(mode, old(ids[b]), id)]
    {
      hide TreeOk, JournalOk, EntriesFrom, RecordOk, StepOk, CanHang, CanPlace, PutAt, ViewOf, Added, IndexOk,
        OutlineOk;
      CanPlaceIff(nodes, kids, rank, mode, b);
      ViewDomains(nodes, kids, rank);
      CopiedText(source.nodes, source.kids, source.ids, source.index, xk);
      var kind := MadeFrom(source.nodes[xk].kind);
      if (mode.InsertChild? || mode.AppendChild?) && Textual(nodes[b].kind) {
        return false;
      }
      if (mode.InsertBefore? || mode.InsertAfter?) && nodes[b].father == 0 {
        return false;
      }
      var x := Copy(kind, id, source.nodes[xk].text);
      ghost var v := View();
      ViewOk(nodes, kids, rank);
      InsertBy(mode, b, x);
      InsertApplied(v, mode, b, x, View());
      ok := true;
    }

    /** The body of the replay loop; `applied` says that the item was not skipped. */
    method ApplyItem(e: Entry, source: Document) returns (ok: bool, applied: bool)
      requires Valid() && source.Valid() && source != this
      modifies this
      ensures ok <==> ItemApplies(old(State()), e, source.State())
      ensures ok ==> Valid() && State() == Apply(old(State()), e, source.State())
      ensures ok ==>
            applied == Takes(old(State()), e, source.State())
            && Entries() == old(Entries()) + Tells(old(State()), e, source.State())
    {
      hide TreeOk, JournalOk, EntriesFrom, RecordOk, StepOk, Pruned, CanHang, IsLinked, Created, CanPlace, Found, Has,
           Order, RemovalItems;
      var base := GetElementById(e.base);
      if base == 0 {
        return true, false;
      }
      match e
      case InsertItem(mode, b, x) =>
        var alt := source.GetElementById(x);
        if alt == 0 {
          return true, false;
        }
        ok := ApplyCreate(mode, base, x, alt, source);
        applied := true;
      case RemoveItem(b) =>
        ViewLinked(nodes, kids, rank, base);
        if nodes[base].father == 0 {
          return false, false;
        }
        ghost var gone := DeleteElement(base);
        return true, true;
      case TextItem(b) =>
        var alt := source.GetElementById(b);
        if alt == 0 {
          return true, false;
        }
        if !Textual(source.nodes[alt].kind) || !Textual(nodes[base].kind) {
          return false, false;
        }
        SetText(base, source.nodes[alt].text);
        return true, true;
    }

    /** applyJournal: the items since the source's fork, in order; an applied item is copied to the own journal. */
    method ApplyJournal(source: Document) returns (ok: bool)
      requires Valid() && source.Valid() && source != this
      modifies this
      ensures ok <==> Applies(old(State()), source.Entries(), source.State())
      ensures ok ==> Valid() && State() == Replayed(old(State()), source.Entries(), source.State())
      ensures ok ==> Entries() == old(Entries()) + AllTold(old(State()), source.Entries(), source.State())
    {
      hide TreeOk, JournalOk, EntriesFrom, ViewOf, Apply, ItemApplies, RecordOk, IndexOk, Takes, Tells, Played, Applies,
        ItemIs,
           Replayed, AllTold;
      PlayedNone(State(), source.State(), Entries());
      ghost var was, entries, told, done: nat := State(), source.Entries(), Entries(), 0;
      ok := true;
      var ptr := source.firstJournalItem;
      FirstItem(source.items, source.order, source.start, source.firstAllocedJournalItem, ptr,
          source.lastAllocedJournalItem, source.freePtr);
      while ptr != 0
        invariant done <= |entries| && ItemIs(source.items, source.order, source.start, ptr, done)
        invariant Valid() && Played(was, entries[..done], source.State(), State(), told, Entries())
        decreases |entries| - done
      {
        NextItem(source.items, source.order, source.start, ptr, done);
        var item := source.items[ptr];
        ptr := item.next;
        assert entries[..done + 1] == entries[..done] + [item.entry];
        ghost var now, nowTold := State(), Entries();
        var applied;
        ok, applied := ApplyItem(item.entry, source);
        if !ok {
          PlayedNot(was, entries[..done], item.entry, source.State(), now, told, nowTold);
          AppliesBack(was, entries, source.State(), done + 1);
          return;
        }
        if applied {
          AppendJournal(item.entry);
        }
        PlayedMore(was, entries[..done], item.entry, source.State(), now, State(), told, nowTold, Entries());
        done := done + 1;
      }
      NextItem(source.items, source.order, source.start, ptr, done);
      assert entries[..done] == entries;
      PlayedIs(was, entries, source.State(), State(), told, Entries());
    }
  }
}
