/** The outline of a linked tree, and what deleting a whole subtree leaves of it. */
module DomViews {
  import opened DomTree
  import opened Outlines
  import opened Replay

  ghost function ViewOf(nodes: Nodes, kids: Kids): Outline {
    Outline(kids, map c | c in nodes :: nodes[c].kind, map c | c in nodes :: nodes[c].text)
  }

  // ----- links and outlines agree -----

  lemma ViewFather(nodes: Nodes, kids: Kids, rank: Rank, y: ElementId, f: ElementId)
    requires TreeOk(nodes, kids, rank)
    ensures HasFather(ViewOf(nodes, kids), y, f) <==> f != 0 && y in nodes && nodes[y].father == f
  {
    if HasFather(ViewOf(nodes, kids), y, f) {
      assert FatherOk(nodes, kids, f);
      var k :| 0 <= k < |kids[f]| && kids[f][k] == y;
      assert ChildOk(nodes, f, kids[f], k);
    }
    if y in nodes && nodes[y].father == f && f != 0 {
      assert LinkedOk(nodes, kids, y);
    }
  }

  lemma ViewLinked(nodes: Nodes, kids: Kids, rank: Rank, y: ElementId)
    requires TreeOk(nodes, kids, rank) && y in nodes
    ensures IsLinked(ViewOf(nodes, kids), y) <==> nodes[y].father != 0
  {
    ViewFather(nodes, kids, rank, y, nodes[y].father);
    if IsLinked(ViewOf(nodes, kids), y) {
      var f :| HasFather(ViewOf(nodes, kids), y, f);
      ViewFather(nodes, kids, rank, y, f);
    }
  }

  lemma ViewOk(nodes: Nodes, kids: Kids, rank: Rank)
    requires TreeOk(nodes, kids, rank)
    ensures OutlineOk(ViewOf(nodes, kids))
  {
    var o := ViewOf(nodes, kids);
    NoZero(nodes, kids, rank);
    forall p | p in o.kids
      ensures NoDup(o.kids[p])
    {
      assert FatherOk(nodes, kids, p);
    }
    forall p, y | HasFather(o, y, p)
      ensures y in nodes && nodes[y].father == p
    {
      ViewFather(nodes, kids, rank, y, p);
    }
  }

  /** Only child lists changed. */
  lemma SameContents(nodes: Nodes, nodes': Nodes, kids: Kids, kids': Kids)
    requires nodes'.Keys == nodes.Keys
          && forall c :: c in nodes ==> nodes'[c].text == nodes[c].text && nodes'[c].kind == nodes[c].kind
    ensures ViewOf(nodes', kids') == ViewOf(nodes, kids).(kids := kids')
  {
  }

  // ----- outlines without some elements -----

  ghost function Without(o: Outline, gone: set<ElementId>): Outline {
    Outline(map p | p in o.kids && p !in gone :: Minus(o.kids[p], gone), o.kind - gone, o.text - gone)
  }

  lemma {:induction false} MinusTwice(s: seq<ElementId>, a: set<ElementId>, b: set<ElementId>)
    ensures Minus(Minus(s, a), b) == Minus(s, a + b)
  {
    if s != [] {
      MinusTwice(s[1..], a, b);
      var rest := Minus(s[1..], a);
      if s[0] !in a {
        assert Minus(s, a) == [s[0]] + rest && ([s[0]] + rest)[1..] == rest;
      } else {
        assert Minus(s, a) == rest;
      }
    }
  }

  lemma MinusAt(s: seq<ElementId>, n: nat)
    requires n < |s| && NoDup(s)
    ensures Minus(s, {s[n]}) == RemoveAt(s, n)
  {
    assert s == s[..n] + [s[n]] + s[n + 1..];
    MinusOne(s[..n], s[n], s[n + 1..]);
  }

  lemma WithoutTwice(o: Outline, a: set<ElementId>, b: set<ElementId>)
    ensures Without(Without(o, a), b) == Without(o, a + b)
  {
    forall p | p in o.kids && p !in a + b
      ensures Minus(Minus(o.kids[p], a), b) == Minus(o.kids[p], a + b)
    {
      MinusTwice(o.kids[p], a, b);
    }
    assert Without(Without(o, a), b).kids == Without(o, a + b).kids;
    assert o.kind - a - b == o.kind - (a + b);
    assert o.text - a - b == o.text - (a + b);
  }

  lemma WithoutNone(o: Outline)
    ensures Without(o, {}) == o
  {
    forall p | p in o.kids
      ensures Minus(o.kids[p], {}) == o.kids[p]
    {
      MinusNone(o.kids[p], {});
    }
    assert Without(o, {}).kids == o.kids;
    assert o.kind - {} == o.kind && o.text - {} == o.text;
  }

  lemma DroppedIsWithout(o: Outline, f: ElementId, n: nat, x: ElementId)
    requires OutlineOk(o) && f in o.kids && n < |o.kids[f]| && o.kids[f][n] == x && f != x
    ensures Dropped(o, f, n, x) == Without(o, {x})
  {
    assert HasFather(o, x, f);
    forall p | p in o.kids && p != x
      ensures Minus(o.kids[p], {x}) == o.kids[f := RemoveAt(o.kids[f], n)][p]
    {
      if p == f {
        MinusAt(o.kids[f], n);
      } else {
        forall k | 0 <= k < |o.kids[p]|
          ensures o.kids[p][k] != x
        {
          assert HasFather(o, o.kids[p][k], p);
        }
        MinusNone(o.kids[p], {x});
      }
    }
    assert Dropped(o, f, n, x).kids == Without(o, {x}).kids;
  }

  // ----- whole subtrees -----

  ghost predicate Closed(o: Outline, gone: set<ElementId>, y: ElementId) {
    y in o.kids && forall k :: 0 <= k < |o.kids[y]| ==> o.kids[y][k] in gone
  }

  ghost predicate HangsIn(o: Outline, x: ElementId, gone: set<ElementId>, y: ElementId) {
    exists f :: HasFather(o, y, f) && (f == x || f in gone)
  }

  /** gone holds whole subtrees of children of x. */
  ghost predicate Beneath(o: Outline, x: ElementId, gone: set<ElementId>) {
    x !in gone && forall y :: y in gone ==> Closed(o, gone, y) && HangsIn(o, x, gone, y)
  }

  lemma BeneathMore(o: Outline, x: ElementId, gone: set<ElementId>, c: ElementId, more: set<ElementId>)
    requires Beneath(o, x, gone) && HasFather(o, c, x) && c != x && x !in more && c !in more
    requires var v := Without(o, gone); c in v.kids && Beneath(v, c, more) && Closed(v, more, c)
    ensures Beneath(o, x, gone + more + {c})
  {
    var v, all := Without(o, gone), gone + more + {c};
    forall y | y in all
      ensures Closed(o, all, y) && HangsIn(o, x, all, y)
    {
      if y in gone {
        assert Closed(o, gone, y) && HangsIn(o, x, gone, y);
        var f :| HasFather(o, y, f) && (f == x || f in gone);
        assert HasFather(o, y, f) && (f == x || f in all);
      } else {
        assert y in v.kids && (y == c || (Closed(v, more, y) && HangsIn(v, c, more, y)));
        forall k | 0 <= k < |o.kids[y]|
          ensures o.kids[y][k] in all
        {
          MinusItems(o.kids[y], gone, o.kids[y][k]);
        }
        if y == c {
          assert HasFather(o, y, x);
        } else {
          var f :| HasFather(v, y, f) && (f == c || f in more);
          MinusItems(o.kids[f], gone, y);
          assert HasFather(o, y, f) && (f == x || f in all);
        }
      }
    }
  }

  /** When all children of x are gone, what is gone together with x is its whole subtree. */
  lemma BeneathIsSubtree(nodes: Nodes, kids: Kids, rank: Rank, x: ElementId, gone: set<ElementId>)
    requires TreeOk(nodes, kids, rank) && x in nodes
    requires var o := ViewOf(nodes, kids); Beneath(o, x, gone) && Closed(o, gone, x)
    ensures gone + {x} == Subtree(ViewOf(nodes, kids), x)
  {
    var o := ViewOf(nodes, kids);
    forall y
      ensures y in Subtree(o, x) <==> y in gone + {x}
    {
      SubtreeInside(o, x, gone, y);
      if y in gone + {x} {
        InsideSubtree(nodes, kids, rank, x, gone, y);
      }
    }
  }

  lemma SubtreeInside(o: Outline, x: ElementId, gone: set<ElementId>, y: ElementId)
    requires Beneath(o, x, gone) && Closed(o, gone, x)
    ensures y in Subtree(o, x) ==> y in gone + {x}
  {
    if y in Subtree(o, x) {
      var path :| Path(o, path) && path[0] == x && path[|path| - 1] == y;
      PathInside(o, x, gone, path, |path| - 1);
    }
  }

  lemma InsideSubtree(nodes: Nodes, kids: Kids, rank: Rank, x: ElementId, gone: set<ElementId>, y: ElementId)
    requires TreeOk(nodes, kids, rank) && x in nodes && y in gone + {x} && Beneath(ViewOf(nodes, kids), x, gone)
    ensures y in Subtree(ViewOf(nodes, kids), x)
  {
    var o := ViewOf(nodes, kids);
    assert x in o.kids;
    hide TreeOk;
    var path := Climb(nodes, kids, rank, x, gone, y);
    assert Below(o, x, y);
    assert y in gone ==> Closed(o, gone, y);
  }

  lemma {:induction false} PathInside(o: Outline, x: ElementId, gone: set<ElementId>, path: seq<ElementId>, k: nat)
    requires Beneath(o, x, gone) && Closed(o, gone, x) && Path(o, path) && path[0] == x && k < |path|
    ensures path[k] in gone + {x}
  {
    if k > 0 {
      PathInside(o, x, gone, path, k - 1);
      assert Edge(o, path, k - 1);
      assert Closed(o, gone, path[k - 1]);
    }
  }

  lemma {:induction false} Climb(nodes: Nodes, kids: Kids, rank: Rank, x: ElementId, gone: set<ElementId>, y: ElementId)
      returns (path: seq<ElementId>)
    requires TreeOk(nodes, kids, rank) && x in nodes && y in gone + {x} && Beneath(ViewOf(nodes, kids), x, gone)
    ensures Path(ViewOf(nodes, kids), path) && path[0] == x && path[|path| - 1] == y
    decreases if y in rank then rank[y] else 0
  {
    hide TreeOk, Beneath, ViewOf, HasFather;
    if y == x {
      path := [x];
    } else {
      var f := UpOne(nodes, kids, rank, x, gone, y);
      var up := Climb(nodes, kids, rank, x, gone, f);
      LongerPath(ViewOf(nodes, kids), up, y);
      path := up + [y];
    }
  }

  lemma UpOne(nodes: Nodes, kids: Kids, rank: Rank, x: ElementId, gone: set<ElementId>, y: ElementId)
      returns (f: ElementId)
    requires TreeOk(nodes, kids, rank) && y in gone && Beneath(ViewOf(nodes, kids), x, gone)
    ensures HasFather(ViewOf(nodes, kids), y, f) && (f == x || f in gone) && f in rank && y in rank && rank[f] < rank[y]
  {
    hide FatherOk, LinkedOk;
    assert HangsIn(ViewOf(nodes, kids), x, gone, y);
    f :| HasFather(ViewOf(nodes, kids), y, f) && (f == x || f in gone);
    ViewFather(nodes, kids, rank, y, f);
    FatherIn(nodes, kids, rank, y);
  }

  lemma LongerPath(o: Outline, up: seq<ElementId>, y: ElementId)
    requires Path(o, up) && HasFather(o, y, up[|up| - 1])
    ensures Path(o, up + [y])
  {
    hide HasFather;
    forall k | 0 <= k < |up| + 1
      ensures Edge(o, up + [y], k)
    {
      if k + 1 < |up| {
        assert Edge(o, up, k);
      }
    }
  }

  // ----- recorded runs -----

  /** One more step lengthens the run and its journal. */
  lemma OneMore(run: seq<Outline>, steps: seq<Step>, s: Step, o: Outline)
    requires StepsOk(run, steps) && StepOk(run[|steps|], s, o)
    ensures StepsOk(run + [o], steps + [s])
          && Journal(run + [o], steps + [s]) == Journal(run, steps) + EntryOf(run[|steps|], s)
  {
    hide StepOk, EntryOf;
    var run', steps' := run + [o], steps + [s];
    forall i | 0 <= i < |steps'|
      ensures StepOk(run'[i], steps'[i], run'[i + 1])
    {
      if i < |steps| {
        assert StepOk(run[i], steps[i], run[i + 1]);
      }
    }
    assert steps'[..|steps|] == steps;
    SameJournal(run, run', steps);
  }

  lemma {:induction false} SameJournal(run: seq<Outline>, run': seq<Outline>, steps: seq<Step>)
    requires |steps| <= |run| <= |run'| && forall i :: 0 <= i < |run| ==> run'[i] == run[i]
    ensures Journal(run', steps) == Journal(run, steps)
  {
    if steps != [] {
      SameJournal(run, run', steps[..|steps| - 1]);
    }
  }

  /** A run went on with removals only. */
  ghost predicate Removals(run: seq<Outline>, steps: seq<Step>, run': seq<Outline>, steps': seq<Step>) {
    && |run| <= |run'| && run'[..|run|] == run && |steps| <= |steps'| && steps'[..|steps|] == steps
    && (forall i :: |steps| <= i < |steps'| ==> steps'[i].Rem?)
  }

  lemma RemovalsJoin(run: seq<Outline>, steps: seq<Step>, run1: seq<Outline>, steps1: seq<Step>, run2: seq<Outline>,
      steps2: seq<Step>)
    requires Removals(run, steps, run1, steps1) && Removals(run1, steps1, run2, steps2)
    ensures Removals(run, steps, run2, steps2)
  {
    assert run2[..|run|] == run2[..|run1|][..|run|];
    assert steps2[..|steps|] == steps2[..|steps1|][..|steps|];
    forall i | |steps| <= i < |steps2|
      ensures steps2[i].Rem?
    {
      assert i < |steps1| ==> steps2[i] == steps2[..|steps1|][i];
    }
  }

  // ----- what the edits need -----

  lemma CreateView(nodes: Nodes, kids: Kids, rank: Rank, x: ElementId, kind: Kind)
    requires TreeOk(nodes, kids, rank) && x != 0 && x !in nodes
    ensures var v := ViewOf(nodes[x := Node(kind, 0, 0, 0, 0, 0, "")], kids[x := []]);
            v == Added(ViewOf(nodes, kids), x, kind, "") && StepOk(ViewOf(nodes, kids), New(x, kind, ""), v)
  {
    hide TreeOk;
    KidKeys(nodes, kids, rank);
    MoreInView(nodes, kids, x, Node(kind, 0, 0, 0, 0, 0, ""));
  }

  lemma MoreInView(nodes: Nodes, kids: Kids, x: ElementId, m: Node)
    requires x !in nodes
    ensures ViewOf(nodes[x := m], kids[x := []]) == Added(ViewOf(nodes, kids), x, m.kind, m.text)
  {
    var o, v := ViewOf(nodes, kids), ViewOf(nodes[x := m], kids[x := []]);
    assert v.kind == o.kind[x := m.kind];
    assert v.text == o.text[x := m.text];
  }

  lemma TextView(nodes: Nodes, kids: Kids, rank: Rank, x: ElementId, text: string)
    requires TreeOk(nodes, kids, rank) && x in nodes && Textual(nodes[x].kind)
    ensures var o := ViewOf(nodes, kids);
            var v := ViewOf(nodes[x := nodes[x].(text := text)], kids);
            v == o.(text := o.text[x := text]) && StepOk(o, Txt(x, text), v)
    ensures IsLinked(ViewOf(nodes, kids), x) <==> nodes[x].father != 0
  {
    hide TreeOk, IsLinked;
    ViewLinked(nodes, kids, rank, x);
    TextInView(nodes, kids, x, text);
    KidKeys(nodes, kids, rank);
  }

  lemma TextInView(nodes: Nodes, kids: Kids, x: ElementId, text: string)
    requires x in nodes
    ensures var o := ViewOf(nodes, kids);
          ViewOf(nodes[x := nodes[x].(text := text)], kids) == o.(text := o.text[x := text])
  {
    assert ViewOf(nodes[x := nodes[x].(text := text)], kids).kind == ViewOf(nodes, kids).kind;
  }

  lemma KidKeys(nodes: Nodes, kids: Kids, rank: Rank)
    requires TreeOk(nodes, kids, rank)
    ensures kids.Keys == nodes.Keys
  {
    hide FatherOk, LinkedOk, Acyclic;
  }

  /** The links around the place where x will come. */
  lemma HangFacts(nodes: Nodes, kids: Kids, rank: Rank, f: ElementId, x: ElementId, n: nat)
    requires CanHang(nodes, kids, rank, f, x) && n <= |kids[f]|
    ensures f in nodes && x in nodes && f != x && 0 !in nodes && nodes[x].elder == 0 && nodes[x].younger == 0
    ensures nodes[f].child == At(kids[f], 0) && nodes[f].lastChild == At(kids[f], |kids[f]| - 1)
    ensures nodes[f].child == 0 <==> nodes[f].lastChild == 0
    ensures var (e, y) := (At(kids[f], n - 1), At(kids[f], n));
            && (n > 0 ==> e in nodes && e != x && e != f && nodes[e].younger == y)
            && (n < |kids[f]| ==> y in nodes && y != x && y != f && y != e && nodes[y].elder == e)
  {
    NoZero(nodes, kids, rank);
    assert FatherOk(nodes, kids, f) && LinkedOk(nodes, kids, x);
    NotListed(nodes, kids, rank, f, x);
    NotListed(nodes, kids, rank, f, f);
    assert n > 0 ==> ChildOk(nodes, f, kids[f], n - 1);
    assert n < |kids[f]| ==> ChildOk(nodes, f, kids[f], n);
    assert kids[f] != [] ==> ChildOk(nodes, f, kids[f], 0) && ChildOk(nodes, f, kids[f], |kids[f]| - 1);
  }

  lemma InKids(nodes: Nodes, kids: Kids, rank: Rank, f: ElementId, x: ElementId)
    requires CanHang(nodes, kids, rank, f, x)
    ensures f in nodes && f in kids && x in nodes
  {
  }

  /** Hanging a detached element at a place that the mode names is a step of a run. */
  lemma InsertStep(nodes: Nodes, kids: Kids, rank: Rank, mode: Mode, b: ElementId, x: ElementId, f: ElementId, n: nat)
    requires CanHang(nodes, kids, rank, f, x) && b in nodes && b != x && f != x
          && Place(ViewOf(nodes, kids), mode, b, f, n)
    ensures StepOk(ViewOf(nodes, kids), Ins(mode, b, x), Put(ViewOf(nodes, kids), f, n, x))
  {
    ViewLinked(nodes, kids, rank, x);
    assert PutInto(ViewOf(nodes, kids), mode, b, x, f, n, Put(ViewOf(nodes, kids), f, n, x));
  }

  lemma FirstStep(nodes: Nodes, kids: Kids, rank: Rank, me: ElementId, x: ElementId)
    requires CanHang(nodes, kids, rank, me, x)
    ensures StepOk(ViewOf(nodes, kids), Ins(InsertChild, me, x), Put(ViewOf(nodes, kids), me, 0, x))
  {
    InsertStep(nodes, kids, rank, InsertChild, me, x, me, 0);
  }

  lemma LastStep(nodes: Nodes, kids: Kids, rank: Rank, me: ElementId, x: ElementId)
    requires CanHang(nodes, kids, rank, me, x)
    ensures StepOk(ViewOf(nodes, kids), Ins(AppendChild, me, x), Put(ViewOf(nodes, kids), me, |kids[me]|, x))
  {
    InsertStep(nodes, kids, rank, AppendChild, me, x, me, |kids[me]|);
  }

  /** me is child k of a father under which x may be hung. */
  ghost predicate BesideOk(nodes: Nodes, kids: Kids, rank: Rank, me: ElementId, x: ElementId, k: nat) {
    ChildAt(nodes, kids, rank, me, k) && CanHang(nodes, kids, rank, nodes[me].father, x) && x != me
  }

  lemma BehindStep(nodes: Nodes, kids: Kids, rank: Rank, me: ElementId, x: ElementId, k: nat)
    requires BesideOk(nodes, kids, rank, me, x, k)
    ensures nodes[me].father != x
    ensures StepOk(ViewOf(nodes, kids), Ins(InsertAfter, me, x), Put(ViewOf(nodes, kids), nodes[me].father, k + 1, x))
  {
    InsertStep(nodes, kids, rank, InsertAfter, me, x, nodes[me].father, k + 1);
  }

  lemma BeforeStep(nodes: Nodes, kids: Kids, rank: Rank, me: ElementId, x: ElementId, k: nat)
    requires BesideOk(nodes, kids, rank, me, x, k)
    ensures nodes[me].father in nodes && nodes[me].father != 0
    ensures nodes[me].elder == 0 <==> k == 0
    ensures k > 0 ==>
          BesideOk(nodes, kids, rank, nodes[me].elder, x, k - 1) && nodes[nodes[me].elder].father == nodes[me].father
    ensures StepOk(ViewOf(nodes, kids), Ins(InsertBefore, me, x), Put(ViewOf(nodes, kids), nodes[me].father, k, x))
  {
    UnlinkFacts(nodes, kids, rank, me, k);
    InsertStep(nodes, kids, rank, InsertBefore, me, x, nodes[me].father, k);
    hide CanHang, FatherOk, LinkedOk, Acyclic;
    assert ChildAt(nodes, kids, rank, me, k);
    if k > 0 {
      assert ChildAt(nodes, kids, rank, nodes[me].elder, k - 1);
      ElderIsLinked(nodes, kids, rank, me, x, k);
    }
  }

  lemma ElderIsLinked(nodes: Nodes, kids: Kids, rank: Rank, me: ElementId, x: ElementId, k: nat)
    requires BesideOk(nodes, kids, rank, me, x, k) && k > 0
    ensures nodes[me].elder != x && nodes[me].elder != 0
  {
    UnlinkFacts(nodes, kids, rank, me, k);
  }

  /** An element with a father is some child of it. */
  lemma Beside(nodes: Nodes, kids: Kids, rank: Rank, me: ElementId, x: ElementId) returns (k: nat)
    requires me in nodes && nodes[me].father != 0 && CanHang(nodes, kids, rank, nodes[me].father, x) && x != me
    ensures BesideOk(nodes, kids, rank, me, x, k)
  {
    k := PlaceOf(nodes, kids, rank, me);
  }

  /** The links around the place right behind me. */
  lemma BehindFacts(nodes: Nodes, kids: Kids, rank: Rank, me: ElementId, x: ElementId, k: nat)
    requires BesideOk(nodes, kids, rank, me, x, k)
    ensures me in nodes && nodes[me].father in nodes && nodes[me].father in kids && k + 1 <= |kids[nodes[me].father]|
    ensures At(kids[nodes[me].father], k) == me && At(kids[nodes[me].father], k + 1) == nodes[me].younger
    ensures nodes[me].younger == 0 <==> k + 1 == |kids[nodes[me].father]|
    ensures CanHang(nodes, kids, rank, nodes[me].father, x)
  {
    UnlinkFacts(nodes, kids, rank, me, k);
  }

  /** Nothing hangs below an element without children. */
  lemma {:induction false} NothingUnder(nodes: Nodes, kids: Kids, rank: Rank, x: ElementId, n: ElementId)
    requires TreeOk(nodes, kids, rank) && x in nodes && kids[x] == [] && n != x
    ensures !Under(nodes, rank, x, n)
    decreases if n in rank then rank[n] else 0
  {
    if n in nodes && nodes[n].father != 0 {
      FatherIn(nodes, kids, rank, n);
      NothingUnder(nodes, kids, rank, x, nodes[n].father);
    }
  }

  // ----- what deleting needs -----

  /** A bound on all ranks. */
  ghost function Top(rank: Rank): (t: nat)
    ensures forall c :: c in rank ==> rank[c] <= t
  {
    if rank == map[] then 0
    else
      var c :| c in rank;
      var rest := map d | d in rank && d != c :: rank[d];
      var t := Top(rest);
      assert forall d :: d in rank && d != c ==> d in rest && rest[d] == rank[d];
      if t < rank[c] then rank[c] else t
  }

  lemma FirstChild(nodes: Nodes, kids: Kids, rank: Rank, x: ElementId)
    requires TreeOk(nodes, kids, rank) && x in nodes && nodes[x].child != 0
    ensures var c := nodes[x].child;
            c in nodes && c != x && x != 0 && nodes[c].father == x && x in rank && c in rank
                && rank[x] < rank[c] <= Top(rank)
    ensures HasFather(ViewOf(nodes, kids), nodes[x].child, x)
  {
    assert FatherOk(nodes, kids, x);
    assert ChildOk(nodes, x, kids[x], 0);
    ViewFather(nodes, kids, rank, nodes[x].child, x);
  }

  lemma NoChildren(nodes: Nodes, kids: Kids, rank: Rank, x: ElementId)
    requires TreeOk(nodes, kids, rank) && x in nodes && nodes[x].child == 0
    ensures kids[x] == []
  {
    assert FatherOk(nodes, kids, x);
    assert kids[x] != [] ==> ChildOk(nodes, x, kids[x], 0);
  }

  lemma KeysGone(nodes: Nodes, kids: Kids, nodes': Nodes, kids': Kids, rank: Rank, gone: set<ElementId>)
    requires TreeOk(nodes, kids, rank) && TreeOk(nodes', kids', rank)
          && ViewOf(nodes', kids') == Without(ViewOf(nodes, kids), gone)
    ensures nodes.Keys == kids.Keys && nodes'.Keys == kids'.Keys && kids'.Keys == kids.Keys - gone
  {
    hide FatherOk, LinkedOk, Acyclic;
    assert Without(ViewOf(nodes, kids), gone).kids == kids';
  }

  /** Before anything is deleted. */
  lemma NothingYet(o: Outline, x: ElementId, run: seq<Outline>, steps: seq<Step>)
    ensures Without(o, {}) == o && Beneath(o, x, {}) && Removals(run, steps, run, steps)
  {
    WithoutNone(o);
  }

  lemma RemovalsOne(run: seq<Outline>, steps: seq<Step>, o: Outline, x: ElementId)
    ensures Removals(run, steps, run + [o], steps + [Rem(x)])
  {
  }

  lemma Childless(nodes: Nodes, kids: Kids, rank: Rank, x: ElementId)
    requires TreeOk(nodes, kids, rank) && x in nodes
    ensures x in kids && (Textual(nodes[x].kind) ==> kids[x] == [])
  {
    assert FatherOk(nodes, kids, x);
  }

  lemma {:induction false} BeneathRank(nodes: Nodes, kids: Kids, rank: Rank, x: ElementId, gone: set<ElementId>,
      y: ElementId)
    requires TreeOk(nodes, kids, rank) && x in nodes && Beneath(ViewOf(nodes, kids), x, gone) && y in gone
    ensures y in rank && rank[x] < rank[y]
    decreases if y in rank then rank[y] else 0
  {
    var f := UpOne(nodes, kids, rank, x, gone, y);
    if f != x {
      BeneathRank(nodes, kids, rank, x, gone, f);
    }
  }

  /** Deleting one more child with all that is beneath it. */
  lemma NextChild(was: Outline, x: ElementId, gone: set<ElementId>, nodes: Nodes, kids: Kids, rank: Rank, c: ElementId,
      rest: set<ElementId>)
    requires TreeOk(nodes, kids, rank) && x in nodes && x in rank && c in nodes && c in rank && rank[x] < rank[c]
    requires ViewOf(nodes, kids) == Without(was, gone) && Beneath(was, x, gone) && HasFather(ViewOf(nodes, kids), c, x)
    requires Beneath(ViewOf(nodes, kids), c, rest) && Closed(ViewOf(nodes, kids), rest, c)
    ensures Beneath(was, x, gone + rest + {c}) && x !in rest + {c}
    ensures Without(ViewOf(nodes, kids), rest + {c}) == Without(was, gone + rest + {c})
  {
    var v := ViewOf(nodes, kids);
    if x in rest {
      BeneathRank(nodes, kids, rank, c, rest, x);
    }
    MinusItems(was.kids[x], gone, c);
    assert HasFather(was, c, x);
    BeneathMore(was, x, gone, c, rest);
    WithoutTwice(was, gone, rest + {c});
    assert gone + (rest + {c}) == gone + rest + {c};
  }

  /** An element whose children are gone still hangs where it did. */
  lemma StillHangs(nodes: Nodes, kids: Kids, nodes': Nodes, kids': Kids, rank: Rank, x: ElementId, gone: set<ElementId>)
    requires TreeOk(nodes, kids, rank) && TreeOk(nodes', kids', rank) && x in nodes && x in nodes'
          && nodes[x].father != 0
    requires Beneath(ViewOf(nodes, kids), x, gone) && ViewOf(nodes', kids') == Without(ViewOf(nodes, kids), gone)
    ensures nodes'[x].father == nodes[x].father
    ensures kids'[x] == [] ==> Closed(ViewOf(nodes, kids), gone, x)
  {
    var o, f := ViewOf(nodes, kids), nodes[x].father;
    ViewFather(nodes, kids, rank, x, f);
    assert f in gone ==> Closed(o, gone, f);
    MinusItems(kids[f], gone, x);
    assert HasFather(ViewOf(nodes', kids'), x, f);
    ViewFather(nodes', kids', rank, x, f);
    if kids'[x] == [] {
      forall k | 0 <= k < |kids[x]|
        ensures kids[x][k] in gone
      {
        MinusItems(kids[x], gone, kids[x][k]);
      }
    }
  }

  lemma FreeView(nodes: Nodes, kids: Kids, rank: Rank, x: ElementId, n: nat, nodes': Nodes)
    requires ChildAt(nodes, kids, rank, x, n) && kids[x] == [] && nodes'.Keys == nodes.Keys
    requires forall c :: c in nodes ==> nodes'[c].kind == nodes[c].kind && nodes'[c].text == nodes[c].text
    ensures var (o, f) := (ViewOf(nodes, kids), nodes[x].father);
            var o' := ViewOf(nodes' - {x}, kids[f := RemoveAt(kids[f], n)] - {x});
            && OutlineOk(o) && f != x && f in o.kids && n < |o.kids[f]| && o.kids[f][n] == x
            && o' == Dropped(o, f, n, x) && StepOk(o, Rem(x), o')
  {
    hide TreeOk, OutlineOk, FatherOk, LinkedOk, Acyclic, RemoveAt;
    ChildAtView(nodes, kids, rank, x, n);
    var o, f := ViewOf(nodes, kids), nodes[x].father;
    var o' := ViewOf(nodes' - {x}, kids[f := RemoveAt(kids[f], n)] - {x});
    assert o'.kind == o.kind - {x};
    assert o'.text == o.text - {x};
    assert o' == Dropped(o, f, n, x);
    assert DroppedFrom(o, x, f, n, o');
  }

  /** Unlinking an element is a step of a run. */
  lemma UnlinkView(nodes: Nodes, kids: Kids, rank: Rank, x: ElementId, n: nat, nodes': Nodes)
    requires ChildAt(nodes, kids, rank, x, n) && nodes'.Keys == nodes.Keys
    requires forall c :: c in nodes ==> nodes'[c].kind == nodes[c].kind && nodes'[c].text == nodes[c].text
    ensures var f := nodes[x].father;
          StepOk(ViewOf(nodes, kids), Unlink(x), ViewOf(nodes', kids[f := RemoveAt(kids[f], n)]))
  {
    hide TreeOk, RemoveAt;
    var f := nodes[x].father;
    SameContents(nodes, nodes', kids, kids[f := RemoveAt(kids[f], n)]);
    assert UnlinkedFrom(ViewOf(nodes, kids), x, f, n, ViewOf(nodes', kids[f := RemoveAt(kids[f], n)]));
  }

  lemma ChildAtView(nodes: Nodes, kids: Kids, rank: Rank, x: ElementId, n: nat)
    requires ChildAt(nodes, kids, rank, x, n)
    ensures var (o, f) := (ViewOf(nodes, kids), nodes[x].father);
            OutlineOk(o) && f != x && x in o.kids && f in o.kids && n < |o.kids[f]| && o.kids[f][n] == x
  {
    ViewOk(nodes, kids, rank);
    UnlinkFacts(nodes, kids, rank, x, n);
  }

  /** Freeing x after its children leaves what cutting its subtree leaves. */
  lemma LastToGo(nodes: Nodes, kids: Kids, rank: Rank, x: ElementId, gone: set<ElementId>, v: Outline, f: ElementId,
      n: nat)
    requires TreeOk(nodes, kids, rank) && x in nodes && Beneath(ViewOf(nodes, kids), x, gone)
          && Closed(ViewOf(nodes, kids), gone, x)
    requires v == Without(ViewOf(nodes, kids), gone) && OutlineOk(v) && f in v.kids && n < |v.kids[f]|
          && v.kids[f][n] == x && f != x
    ensures Dropped(v, f, n, x) == Without(ViewOf(nodes, kids), gone + {x}) == Cut(ViewOf(nodes, kids), x)
  {
    DroppedIsWithout(v, f, n, x);
    WithoutTwice(ViewOf(nodes, kids), gone, {x});
    BeneathIsSubtree(nodes, kids, rank, x, gone);
  }
}
