/** When a journal item can be applied, and what applying it does. */
module Applying {
  import opened DomTree
  import opened DomViews
  import opened Outlines
  import opened Replay
  import opened Simulation

  ghost predicate CanPlace(o: Outline, mode: Mode, b: ElementId) {
    exists f, n: nat :: Place(o, mode, b, f, n) && f in o.kind && !Textual(o.kind[f])
  }

  /** An item that is not skipped raises no exception: inserts need a base with room, removals a father, and texts
      textual nodes on both sides. */
  ghost predicate ItemApplies(t: Target, e: Entry, source: Target) {
    match e
    case InsertItem(mode, b, x) => Has(t, b) && Has(source, x) ==> CanPlace(t.o, mode, Found(t, b))
    case RemoveItem(b) => Has(t, b) ==> IsLinked(t.o, Found(t, b))
    case TextItem(b) => Has(t, b) && Has(source, b) ==>
        Textual(t.o.kind[Found(t, b)]) && Textual(source.o.kind[Found(source, b)])
  }

  ghost predicate Applies(t: Target, entries: seq<Entry>, source: Target) {
    entries == []
    || (var (before, e) := (entries[..|entries| - 1], entries[|entries| - 1]);
        Applies(t, before, source) && ItemApplies(Replayed(t, before, source), e, source))
  }

  lemma AppliesMore(t: Target, before: seq<Entry>, e: Entry, source: Target)
    ensures Applies(t, before + [e], source) <==>
          Applies(t, before, source) && ItemApplies(Replayed(t, before, source), e, source)
    ensures Replayed(t, before + [e], source) == Apply(Replayed(t, before, source), e, source)
  {
    hide ItemApplies, Apply;
    assert (before + [e])[..|before|] == before;
  }

  lemma NothingApplied(t: Target, source: Target)
    ensures Applies(t, [], source) && Replayed(t, [], source) == t
  {
  }

  /** An item that cannot be applied stops the whole journal. */
  lemma {:induction false} AppliesBack(t: Target, entries: seq<Entry>, source: Target, k: nat)
    requires k <= |entries| && !Applies(t, entries[..k], source)
    ensures !Applies(t, entries, source)
    decreases |entries| - k
  {
    if k < |entries| {
      assert entries[..k + 1][..k] == entries[..k];
      AppliesBack(t, entries, source, k + 1);
    } else {
      assert entries[..k] == entries;
    }
  }

  lemma ViewDomains(nodes: Nodes, kids: Kids, rank: Rank)
    requires TreeOk(nodes, kids, rank)
    ensures var o := ViewOf(nodes, kids);
            o.kids.Keys == nodes.Keys && o.kind.Keys == nodes.Keys && o.text.Keys == nodes.Keys && 0 !in nodes
  {
    NoZero(nodes, kids, rank);
    hide FatherOk, LinkedOk, Acyclic;
    assert kids.Keys == nodes.Keys;
  }

  /** Room at a base, told by the links. */
  ghost predicate HasRoom(nodes: Nodes, mode: Mode, b: ElementId)
    requires b in nodes
  {
    if mode.InsertChild? || mode.AppendChild? then !Textual(nodes[b].kind) else nodes[b].father != 0
  }

  lemma CanPlaceIff(nodes: Nodes, kids: Kids, rank: Rank, mode: Mode, b: ElementId)
    requires TreeOk(nodes, kids, rank) && b in nodes
    ensures CanPlace(ViewOf(nodes, kids), mode, b) <==> HasRoom(nodes, mode, b)
  {
    var o := ViewOf(nodes, kids);
    if mode.InsertChild? || mode.AppendChild? {
      if !Textual(nodes[b].kind) {
        assert Place(o, mode, b, b, if mode.InsertChild? then 0 else |o.kids[b]|);
      }
    } else {
      if nodes[b].father != 0 {
        var f := nodes[b].father;
        var n := PlaceOf(nodes, kids, rank, b);
        FatherIn(nodes, kids, rank, b);
        assert Place(o, mode, b, f, if mode.InsertBefore? then n else n + 1);
      }
      if CanPlace(o, mode, b) {
        var f, n: nat :| Place(o, mode, b, f, n) && f in o.kind && !Textual(o.kind[f]);
        assert HasFather(o, b, f);
        ViewFather(nodes, kids, rank, b, f);
      }
    }
  }

  // ----- the index -----

  /** Every element carries an id and is in the index. */
  ghost predicate IndexOk(nodes: Nodes, ids: map<ElementId, ElementId>, index: seq<ElementId>) {
    ids.Keys == nodes.Keys && (forall k :: k in ids ==> ids[k] != 0) && (forall k :: k in index <==> k in nodes)
  }

  /** What getElementById finds is what the replay means by it. */
  lemma FoundIs(nodes: Nodes, kids: Kids, rank: Rank, ids: map<ElementId, ElementId>, index: seq<ElementId>,
      id: ElementId)
    requires TreeOk(nodes, kids, rank) && IndexOk(nodes, ids, index)
    ensures var t := Target(ViewOf(nodes, kids), ids, index);
            Found(t, id) == Find(ids, index, id) && (Has(t, id) <==> Find(ids, index, id) != 0)
            && (Has(t, id) ==> Found(t, id) in nodes)
  {
    hide TreeOk;
    ViewDomains(nodes, kids, rank);
  }

  /** A new childless element can be hung at any base that has room. */
  lemma ReadyToHang(nodes: Nodes, kids: Kids, rank: Rank, mode: Mode, b: ElementId, x: ElementId)
    requires TreeOk(nodes, kids, rank) && b in nodes && x in nodes && b != x && Detached(nodes, x) && kids[x] == []
    requires HasRoom(nodes, mode, b)
    ensures CanHang(nodes, kids, rank, if mode.InsertChild? || mode.AppendChild? then b else nodes[b].father, x)
  {
    var f := if mode.InsertChild? || mode.AppendChild? then b else nodes[b].father;
    if f == nodes[b].father && f != 0 {
      FatherIn(nodes, kids, rank, b);
    }
    NothingUnder(nodes, kids, rank, x, f);
  }

  /** Inserting a new element is the step that the replay takes. */
  lemma InsertApplied(v: Outline, mode: Mode, b: ElementId, x: ElementId, v': Outline)
    requires OutlineOk(v) && StepOk(v, Ins(mode, b, x), v')
    ensures v' == PutAt(v, mode, b, x)
  {
    hide OutlineOk, Place, Put, IsLinked;
    var f, n: nat :| PutInto(v, mode, b, x, f, n, v');
    PutAtIs(v, mode, b, x, f, n);
  }

  lemma PutAtIs(o: Outline, mode: Mode, b: ElementId, x: ElementId, f: ElementId, n: nat)
    requires OutlineOk(o) && Place(o, mode, b, f, n)
    ensures PutAt(o, mode, b, x) == Put(o, f, n, x)
  {
    assert HasPlace(o, mode, b);
    var g, m: nat :| Place(o, mode, b, g, m) && PutAt(o, mode, b, x) == Put(o, g, m, x);
    UniquePlace(o, mode, b, f, n, g, m);
  }
}
