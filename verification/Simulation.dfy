/** Replay follows the source step by step, leaving out what is not in the target. */
module Simulation {
  import opened DomTree
  import opened Outlines
  import opened Replay

  // ----- sequences without some elements -----

  ghost function Filter(s: seq<ElementId>, keep: set<ElementId>): seq<ElementId> {
    if s == [] then [] else (if s[0] in keep then [s[0]] else []) + Filter(s[1..], keep)
  }

  lemma Assoc(a: seq<ElementId>, b: seq<ElementId>, c: seq<ElementId>)
    ensures a + (b + c) == (a + b) + c
  {
  }

  lemma {:induction false} FilterSplit(a: seq<ElementId>, b: seq<ElementId>, keep: set<ElementId>)
    ensures Filter(a + b, keep) == Filter(a, keep) + Filter(b, keep)
  {
    if a == [] {
      assert a + b == b;
    } else {
      assert (a + b)[1..] == a[1..] + b && (a + b)[0] == a[0];
      FilterSplit(a[1..], b, keep);
      Assoc(if a[0] in keep then [a[0]] else [], Filter(a[1..], keep), Filter(b, keep));
    }
  }

  lemma {:induction false} FilterItems(s: seq<ElementId>, keep: set<ElementId>, y: ElementId)
    ensures y in Filter(s, keep) <==> y in s && y in keep
  {
    if s != [] {
      FilterItems(s[1..], keep, y);
      assert s == [s[0]] + s[1..];
    }
  }

  lemma {:induction false} FilterNoDup(s: seq<ElementId>, keep: set<ElementId>)
    requires NoDup(s)
    ensures NoDup(Filter(s, keep))
  {
    if s != [] {
      FilterNoDup(s[1..], keep);
      FilterItems(s[1..], keep, s[0]);
    }
  }

  lemma FilterAround(s: seq<ElementId>, n: nat, keep: set<ElementId>)
    requires n < |s|
    ensures Filter(s, keep) == Filter(s[..n], keep) + (if s[n] in keep then [s[n]] else []) + Filter(s[n + 1..], keep)
  {
    assert s == s[..n] + ([s[n]] + s[n + 1..]);
    FilterSplit(s[..n], [s[n]] + s[n + 1..], keep);
    FilterSplit([s[n]], s[n + 1..], keep);
    assert Filter([s[n]], keep) == if s[n] in keep then [s[n]] else [];
  }

  /** Inserting an element and leaving others out can be done in either order. */
  lemma FilterInsert(s: seq<ElementId>, n: nat, x: ElementId, keep: set<ElementId>)
    requires n <= |s|
    ensures |Filter(s[..n], keep)| <= |Filter(s, keep)|
    ensures Filter(InsertAt(s, n, x), keep)
         == if x in keep then InsertAt(Filter(s, keep), |Filter(s[..n], keep)|, x) else Filter(s, keep)
  {
    var t := InsertAt(s, n, x);
    assert t[..n] == s[..n] && t[n + 1..] == s[n..] && t[n] == x;
    FilterAround(t, n, keep);
    FilterSplit(s[..n], s[n..], keep);
    assert s[..n] + s[n..] == s;
    var a, b := Filter(s[..n], keep), Filter(s[n..], keep);
    assert (a + b)[..|a|] == a && (a + b)[|a|..] == b;
  }

  lemma FilterRemove(s: seq<ElementId>, n: nat, keep: set<ElementId>)
    requires n < |s| && s[n] !in keep
    ensures Filter(RemoveAt(s, n), keep) == Filter(s, keep)
  {
    FilterAround(s, n, keep);
    FilterSplit(s[..n], s[n + 1..], keep);
  }

  /** Leaving out one more element. */
  lemma {:induction false} FilterLess(s: seq<ElementId>, keep: set<ElementId>, x: ElementId)
    ensures Filter(s, keep - {x}) == Minus(Filter(s, keep), {x})
  {
    if s != [] {
      FilterLess(s[1..], keep, x);
      var rest := Filter(s[1..], keep);
      if s[0] in keep {
        assert Filter(s, keep) == [s[0]] + rest && ([s[0]] + rest)[1..] == rest;
      } else {
        assert Filter(s, keep) == rest;
      }
    }
  }

  /** An element that is not in the list makes no difference. */
  lemma {:induction false} FilterMore(s: seq<ElementId>, keep: set<ElementId>, x: ElementId)
    requires x !in s
    ensures Filter(s, keep + {x}) == Filter(s, keep)
  {
    if s != [] {
      FilterMore(s[1..], keep, x);
    }
  }

  lemma {:induction false} FilterAll(s: seq<ElementId>, keep: set<ElementId>)
    requires forall y :: y in s ==> y in keep
    ensures Filter(s, keep) == s
  {
    if s != [] {
      FilterAll(s[1..], keep);
    }
  }

  lemma {:induction false} FilterNone(s: seq<ElementId>, keep: set<ElementId>)
    requires forall y :: y in s ==> y !in keep
    ensures Filter(s, keep) == []
  {
    if s != [] {
      FilterNone(s[1..], keep);
    }
  }

  lemma FilterNothing(keep: set<ElementId>)
    ensures Filter([], keep) == []
  {
  }

  lemma FilterSelf(b: ElementId, keep: set<ElementId>)
    requires b in keep
    ensures Filter([b], keep) == [b]
  {
  }

  // ----- items on documents where every id is an address -----

  ghost function Applied(o: Outline, e: Entry, source: Outline): Outline {
    match e
    case InsertItem(mode, b, x) =>
      if b in o.kids && x in source.kids && x in source.kind && x in source.text
      then PutAt(Added(o, x, MadeFrom(source.kind[x]), if source.kind[x].Text? then source.text[x] else ""), mode, b, x)
      else o
    case RemoveItem(b) => if b in o.kids then Cut(o, b) else o
    case TextItem(b) => if b in o.kids && b in source.kids && b in source.text
        then o.(text := o.text[b := source.text[b]]) else o
  }

  /** The insert brings no id that is there already. */
  ghost predicate BringsNew(o: Outline, e: Entry, source: Outline) {
    e.InsertItem? && e.base in o.kids && e.alt in source.kids ==> e.alt !in o.kids
  }

  lemma PutAtDomains(o: Outline, mode: Mode, b: ElementId, x: ElementId)
    ensures var o' := PutAt(o, mode, b, x);
            o'.kids.Keys == o.kids.Keys && o'.kind == o.kind && o'.text == o.text
  {
    if HasPlace(o, mode, b) {
      var f, n: nat :| Place(o, mode, b, f, n) && PutAt(o, mode, b, x) == Put(o, f, n, x);
    }
  }

  lemma PlainCreated(t: Target, o: Outline, mode: Mode, b: ElementId, x: ElementId, kind: Kind, text: string)
    requires Plain(t, o) && x !in o.kids && x != 0
    ensures Plain(Created(t, mode, b, x, kind, text), PutAt(Added(o, x, kind, text), mode, b, x))
  {
    hide PutAt, Found;
    PutAtDomains(Added(o, x, kind, text), mode, b, x);
    var t' := Created(t, mode, b, x, kind, text);
    forall k
      ensures k in t'.index <==> k in t'.o.kids
    {
      assert k in t.index + [x] <==> k in t.index || k == x;
    }
  }

  lemma PlainPruned(t: Target, o: Outline, x: ElementId)
    requires Plain(t, o)
    ensures Plain(Pruned(t, x), Cut(o, x))
  {
    hide Minus, Subtree, Found;
    var t', gone := Pruned(t, x), Subtree(o, x);
    assert t'.o.kids.Keys == o.kids.Keys - gone;
    forall k
      ensures k in t'.index <==> k in t'.o.kids
    {
      MinusItems(t.index, gone, k);
    }
  }

  /** As long as no id comes twice, every id stays an address. */
  lemma PlainApply(t: Target, o: Outline, e: Entry, source: Target, last: Outline)
    requires Plain(t, o) && Plain(source, last) && BringsNew(o, e, last)
    ensures Plain(Apply(t, e, source), Applied(o, e, last))
  {
    hide Has, Found, Created, Pruned, PutAt, Cut;
    match e
    case InsertItem(mode, b, x) =>
      PlainHas(t, o, b);
      PlainHas(source, last, x);
      if b in o.kids && x in last.kids {
        PlainCreated(t, o, mode, b, x, MadeFrom(last.kind[x]), NewText(source, x));
      }
    case RemoveItem(b) =>
      PlainHas(t, o, b);
      PlainPruned(t, o, b);
    case TextItem(b) =>
      PlainHas(t, o, b);
      PlainHas(source, last, b);
  }

  // ----- the target follows the source -----

  ghost predicate NodeFollows(o: Outline, there: set<ElementId>, t: Outline, y: ElementId) {
    && y in t.kids && y in t.kind && y in o.kids && y in o.kind
    && t.kids[y] == Filter(o.kids[y], there) && (t.kind[y] == o.kind[y] || t.kind[y] == MadeFrom(o.kind[y]))
  }

  /** The target holds the elements that are there, in the source's order. */
  ghost predicate Follows(o: Outline, there: set<ElementId>, t: Outline) {
    && t.kids.Keys == there && t.kind.Keys == there && t.text.Keys == there && there <= o.kids.Keys
    && forall y :: y in there ==> NodeFollows(o, there, t, y)
  }

  /** Elements that are there have the same children, as far as these are there. */
  ghost predicate SameLists(o: Outline, o': Outline, there: set<ElementId>) {
    there <= o'.kids.Keys && forall y :: y in there ==> NodeSame(o, o', there, y)
  }

  ghost predicate NodeSame(o: Outline, o': Outline, there: set<ElementId>, y: ElementId) {
    y in o.kids && y in o'.kids && y in o.kind && y in o'.kind && o'.kind[y] == o.kind[y]
    && Filter(o'.kids[y], there) == Filter(o.kids[y], there)
  }

  lemma FollowSame(o: Outline, o': Outline, there: set<ElementId>, t: Outline)
    requires Follows(o, there, t) && SameLists(o, o', there)
    ensures Follows(o', there, t)
  {
    hide Filter;
    forall y | y in there
      ensures NodeFollows(o', there, t, y)
    {
      assert NodeFollows(o, there, t, y) && NodeSame(o, o', there, y);
    }
  }

  lemma SameNew(o: Outline, x: ElementId, kind: Kind, text: string, there: set<ElementId>)
    requires there <= o.kids.Keys && o.kind.Keys == o.kids.Keys && x !in o.kids
    ensures SameLists(o, Added(o, x, kind, text), there)
  {
    hide Filter;
  }

  lemma SameUnlink(o: Outline, f: ElementId, n: nat, x: ElementId, there: set<ElementId>)
    requires there <= o.kids.Keys && o.kind.Keys == o.kids.Keys && f in o.kids && n < |o.kids[f]| && o.kids[f][n] == x
    requires !(x in there && f in there)
    ensures SameLists(o, o.(kids := o.kids[f := RemoveAt(o.kids[f], n)]), there)
  {
    if x !in there {
      FilterRemove(o.kids[f], n, there);
    }
    hide Filter;
  }

  lemma SamePut(o: Outline, f: ElementId, n: nat, x: ElementId, there: set<ElementId>)
    requires there <= o.kids.Keys && o.kind.Keys == o.kids.Keys && f in o.kids && n <= |o.kids[f]|
    requires !(x in there && f in there)
    ensures SameLists(o, Put(o, f, n, x), there)
  {
    FilterInsert(o.kids[f], n, x, there);
    hide Filter;
  }

  // ----- following a removal -----

  lemma OnlyItself(t: Outline, x: ElementId)
    requires x in t.kids && t.kids[x] == []
    ensures Subtree(t, x) == {x}
  {
    assert Path(t, [x]);
    assert [x][0] == x && Below(t, x, x);
    forall y | y in Subtree(t, x)
      ensures y == x
    {
      var path :| Path(t, path) && path[0] == x && path[|path| - 1] == y;
      assert Edge(t, path, 0);
    }
  }

  lemma CutChildless(t: Outline, x: ElementId)
    requires x in t.kids && t.kids[x] == [] && t.kind.Keys == t.kids.Keys && t.text.Keys == t.kids.Keys
    ensures var t' := Cut(t, x);
            && t'.kids.Keys == t.kids.Keys - {x} && t'.kind == t.kind - {x} && t'.text == t.text - {x}
            && (forall y :: y in t'.kids ==> t'.kids[y] == Minus(t.kids[y], {x}))
  {
    OnlyItself(t, x);
  }

  lemma FollowRem(o: Outline, f: ElementId, n: nat, x: ElementId, there: set<ElementId>, t: Outline, last: Outline)
    requires OutlineOk(o) && Follows(o, there, t) && f in o.kids && n < |o.kids[f]| && o.kids[f][n] == x && f != x
          && x in o.kids && o.kids[x] == []
    ensures Follows(Dropped(o, f, n, x), there - {x}, Applied(t, RemoveItem(x), last))
  {
    hide OutlineOk, Filter, Minus, Cut;
    var o', t', there' := Dropped(o, f, n, x), Applied(t, RemoveItem(x), last), there - {x};
    if x in there {
      assert NodeFollows(o, there, t, x);
      FilterNothing(there);
      CutChildless(t, x);
    }
    FilterRemove(o.kids[f], n, there');
    RemDomains(o, f, n, x, there);
    forall y | y in there'
      ensures NodeFollows(o', there', t', y)
    {
      RemNode(o, f, n, x, there, t, t', y);
    }
  }

  lemma RemDomains(o: Outline, f: ElementId, n: nat, x: ElementId, there: set<ElementId>)
    requires f in o.kids && n < |o.kids[f]| && there <= o.kids.Keys
    ensures there - {x} <= Dropped(o, f, n, x).kids.Keys
  {
  }

  lemma RemNode(o: Outline, f: ElementId, n: nat, x: ElementId, there: set<ElementId>, t: Outline, t': Outline,
      y: ElementId)
    requires y in there && y != x && NodeFollows(o, there, t, y) && f in o.kids && n < |o.kids[f]| && f != x
    requires Filter(RemoveAt(o.kids[f], n), there - {x}) == Filter(o.kids[f], there - {x})
    requires y in t'.kids && y in t'.kind && t'.kind[y] == t.kind[y]
    requires t'.kids[y] == if x in there then Minus(t.kids[y], {x}) else t.kids[y]
    ensures NodeFollows(Dropped(o, f, n, x), there - {x}, t', y)
  {
    hide Filter, Minus;
    FilterLess(o.kids[y], there, x);
    if x !in there {
      assert there - {x} == there;
    }
  }

  // ----- following an insert -----

  lemma UniquePlace(o: Outline, mode: Mode, b: ElementId, f: ElementId, n: nat, g: ElementId, m: nat)
    requires OutlineOk(o) && Place(o, mode, b, f, n) && Place(o, mode, b, g, m)
    ensures f == g && n == m
  {
    if mode.InsertBefore? || mode.InsertAfter? {
      assert HasFather(o, b, f) && HasFather(o, b, g);
    }
  }

  lemma AddedBack(t: Outline, x: ElementId, kind: Kind, text: string, mode: Mode, b: ElementId, g: ElementId, k: nat)
    requires x !in t.kids && b in t.kids && Place(Added(t, x, kind, text), mode, b, g, k)
    ensures Place(t, mode, b, g, k)
  {
  }

  lemma SamePlace(o: Outline, there: set<ElementId>, t: Outline, mode: Mode, b: ElementId, f: ElementId, n: nat)
    requires Follows(o, there, t) && Place(o, mode, b, f, n) && b in there && f in there
    ensures Place(t, mode, b, f, |Filter(o.kids[f][..n], there)|)
  {
    hide Filter, Follows;
    FollowsNode(o, there, t, f);
    var s := o.kids[f];
    FilterInsert(s, n, b, there);
    match mode
    case InsertChild =>
      FilterNothing(there);
      assert s[..0] == [];
    case AppendChild =>
      assert s[..n] == s;
    case InsertBefore =>
      FilterAround(s, n, there);
    case InsertAfter =>
      FilterAround(s, n - 1, there);
      FilterSplit(s[..n - 1], [b], there);
      assert s[..n] == s[..n - 1] + [b];
      FilterSelf(b, there);
  }

  lemma FollowsNode(o: Outline, there: set<ElementId>, t: Outline, y: ElementId)
    requires Follows(o, there, t) && y in there
    ensures NodeFollows(o, there, t, y) && y in t.kids && y in o.kids
  {
  }

  /** Whoever has a father in the target has it in the source. */
  lemma FatherIs(o: Outline, there: set<ElementId>, t: Outline, y: ElementId, f: ElementId)
    requires Follows(o, there, t)
    ensures HasFather(t, y, f) <==> f in there && y in there && HasFather(o, y, f)
  {
    if f in there {
      FollowsNode(o, there, t, f);
      FilterItems(o.kids[f], there, y);
    }
  }

  /** The one place of a new element in the target: the source's, if the father is there. */
  lemma PlaceInTarget(o: Outline, there: set<ElementId>, t: Outline, mode: Mode, b: ElementId, x: ElementId, kind: Kind,
      text: string, f: ElementId, n: nat)
    requires OutlineOk(o) && Follows(o, there, t) && Place(o, mode, b, f, n) && b in there && x !in there
    ensures f in there ==> |Filter(o.kids[f][..n], there)| <= |t.kids[f]|
    ensures var t1 := Added(t, x, kind, text);
            PutAt(t1, mode, b, x) == if f in there then Put(t1, f, |Filter(o.kids[f][..n], there)|, x) else t1
  {
    hide OutlineOk, Filter, Follows;
    var t1 := Added(t, x, kind, text);
    assert x !in t.kids && b in t.kids by {
      TargetKeys(o, there, t);
    }
    if f in there {
      SamePlace(o, there, t, mode, b, f, n);
      TargetKeys(o, there, t);
      assert Place(t1, mode, b, f, |Filter(o.kids[f][..n], there)|);
    }
    forall g, k: nat | Place(t1, mode, b, g, k)
      ensures f in there && g == f && k == |Filter(o.kids[f][..n], there)|
    {
      AddedBack(t, x, kind, text, mode, b, g, k);
      PlacedThere(o, there, t, mode, b, f, n, g, k);
    }
  }

  lemma TargetKeys(o: Outline, there: set<ElementId>, t: Outline)
    requires Follows(o, there, t)
    ensures t.kids.Keys == there && t.kind.Keys == there && t.text.Keys == there && there <= o.kids.Keys
  {
  }

  lemma PlacedThere(o: Outline, there: set<ElementId>, t: Outline, mode: Mode, b: ElementId, f: ElementId, n: nat,
      g: ElementId, k: nat)
    requires OutlineOk(o) && Follows(o, there, t) && Place(o, mode, b, f, n) && b in there && Place(t, mode, b, g, k)
    ensures f in there && g == f && k == |Filter(o.kids[f][..n], there)|
  {
    hide Filter;
    if mode.InsertBefore? || mode.InsertAfter? {
      assert HasFather(t, b, g) && HasFather(o, b, f);
      FatherIs(o, there, t, b, g);
    }
    SamePlace(o, there, t, mode, b, f, n);
    FollowsNode(o, there, t, f);
    FilterNoDup(o.kids[f], there);
    assert NoDup(t.kids[f]);
  }

  /** The element comes to its place among those that are there, and brings no children. */
  lemma FollowCome(o: Outline, f: ElementId, n: nat, x: ElementId, there: set<ElementId>, t: Outline, mode: Mode,
      b: ElementId, last: Outline)
    requires OutlineOk(o) && Follows(o, there, t) && x in o.kids && !IsLinked(o, x) && f != x && Place(o, mode, b, f, n)
    requires b in there && x !in there && (forall z :: z in o.kids[x] ==> z !in there)
    requires x in last.kids && x in last.kind && x in last.text && last.kind[x] == o.kind[x]
    ensures Follows(Put(o, f, n, x), there + {x}, Applied(t, InsertItem(mode, b, x), last))
  {
    hide OutlineOk, Filter, Place, PutAt, IsLinked, Put, Added, NodeFollows;
    var text := if last.kind[x].Text? then last.text[x] else "";
    var t1 := Added(t, x, MadeFrom(last.kind[x]), text);
    PlaceInTarget(o, there, t, mode, b, x, MadeFrom(last.kind[x]), text, f, n);
    PlaceKeys(o, mode, b, f, n);
    KindKnown(o, x);
    PutDomains(o, f, n, x, there);
    TargetKeys(o, there, t);
    if f in there {
      FollowsNode(o, there, t, f);
    }
    ComeDomains(t, x, MadeFrom(last.kind[x]), text, f, |Filter(o.kids[f][..n], there)|, f in there);
    var t' := if f in there then Put(t1, f, |Filter(o.kids[f][..n], there)|, x) else t1;
    assert Applied(t, InsertItem(mode, b, x), last) == t';
    forall y | y in there + {x}
      ensures NodeFollows(Put(o, f, n, x), there + {x}, t', y)
    {
      ComeNode(o, f, n, x, there, t, MadeFrom(last.kind[x]), text, y);
    }
  }

  lemma PlaceKeys(o: Outline, mode: Mode, b: ElementId, f: ElementId, n: nat)
    requires Place(o, mode, b, f, n)
    ensures f in o.kids && n <= |o.kids[f]|
  {
  }

  lemma PutDomains(o: Outline, f: ElementId, n: nat, x: ElementId, there: set<ElementId>)
    requires f in o.kids && n <= |o.kids[f]| && there <= o.kids.Keys && x in o.kids
    ensures there + {x} <= Put(o, f, n, x).kids.Keys
  {
  }

  lemma ComeDomains(t: Outline, x: ElementId, kind: Kind, text: string, f: ElementId, m: nat, put: bool)
    requires put ==> f in t.kids && m <= |t.kids[f]| && f != x
    ensures put ==> f in Added(t, x, kind, text).kids && m <= |Added(t, x, kind, text).kids[f]|
    ensures var t' := if put then Put(Added(t, x, kind, text), f, m, x) else Added(t, x, kind, text);
            t'.kids.Keys == t.kids.Keys + {x} && t'.kind.Keys == t.kind.Keys + {x} && t'.text.Keys == t.text.Keys + {x}
  {
  }

  lemma ComeNode(o: Outline, f: ElementId, n: nat, x: ElementId, there: set<ElementId>, t: Outline, kind: Kind,
      text: string, y: ElementId)
    requires OutlineOk(o) && Follows(o, there, t) && x in o.kids && !IsLinked(o, x) && f != x && f in o.kids
          && n <= |o.kids[f]|
    requires x !in there && (forall z :: z in o.kids[x] ==> z !in there) && x in o.kind && kind == MadeFrom(o.kind[x])
          && y in there + {x}
    requires f in there ==> |Filter(o.kids[f][..n], there)| <= |t.kids[f]|
    ensures var t1 := Added(t, x, kind, text);
            NodeFollows(Put(o, f, n, x), there + {x}, if f in there then Put(t1, f, |Filter(o.kids[f][..n], there)|, x)
                else t1, y)
  {
    hide Filter;
    var there' := there + {x};
    assert !HasFather(o, x, y) && !HasFather(o, x, f);
    if y == x {
      FilterMore(o.kids[x], there, x);
      FilterNone(o.kids[x], there);
    } else {
      FollowsNode(o, there, t, y);
      FilterMore(o.kids[y], there, x);
      if y == f {
        FilterInsert(o.kids[f], n, x, there');
        assert x !in o.kids[f][..n];
        FilterMore(o.kids[f][..n], there, x);
      }
    }
  }

  // ----- texts -----

  /** A text comes from the fork until the journal tells of it, and from the source as it is now afterwards; the kind of
      an element that came is what an insert makes of it. */
  ghost predicate ContentFollows(first: Outline, told: seq<Entry>, last: Outline, t: Outline, y: ElementId) {
    y in t.text && y in t.kind && y in last.text && y in last.kids && y in last.kind ==>
      && (t.kind[y] == if y in first.kids then last.kind[y] else MadeFrom(last.kind[y]))
      && (Textual(t.kind[y]) ==>
            if y in first.kids && TextItem(y) !in told then y in first.text && t.text[y] == first.text[y]
                else t.text[y] == last.text[y])
  }

  /** What one item does to the kind and the text of an element. */
  lemma ContentStep(first: Outline, told: seq<Entry>, e: Entry, last: Outline, t: Outline, y: ElementId)
    requires t.kind.Keys == t.kids.Keys && t.text.Keys == t.kids.Keys && BringsNew(t, e, last)
    requires e.InsertItem? && e.base in t.kids && e.alt in last.kids && e.alt in last.kind ==> e.alt !in first.kids
    requires y in t.kids ==> ContentFollows(first, told, last, t, y)
    ensures ContentFollows(first, told + [e], last, Applied(t, e, last), y)
  {
    hide PutAt, Cut;
    assert TextItem(y) in told + [e] <==> TextItem(y) in told || e == TextItem(y);
    match e
    case InsertItem(mode, b, x) =>
      if b in t.kids && x in last.kids && x in last.kind && x in last.text {
        PutAtDomains(Added(t, x, MadeFrom(last.kind[x]), if last.kind[x].Text? then last.text[x] else ""), mode, b, x);
      }
    case RemoveItem(b) =>
      CutTexts(t, b, y);
    case TextItem(b) =>
  }

  lemma CutTexts(t: Outline, b: ElementId, y: ElementId)
    ensures y in Cut(t, b).text ==> y in t.text && Cut(t, b).text[y] == t.text[y]
    ensures y in Cut(t, b).kind ==> y in t.kind && Cut(t, b).kind[y] == t.kind[y]
  {
  }
}
