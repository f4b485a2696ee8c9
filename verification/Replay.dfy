/** Replaying a journal on the state that the source was forked from. */
module Replay {
  import opened DomTree
  import opened Outlines

  // ----- documents whose elements carry ids -----

  /** A document as a replay sees it: elements at their addresses, the id that each one carries, and the index of
      elements by id, in the order in which they were created. Nothing keeps two elements from carrying one id. */
  datatype Target = Target(o: Outline, ids: map<ElementId, ElementId>, index: seq<ElementId>)

  /** getElementById: the first element of the index that carries the id, or 0. */
  function Find(ids: map<ElementId, ElementId>, index: seq<ElementId>, id: ElementId): (x: ElementId)
    ensures x != 0 ==> x in index && x in ids && ids[x] == id
  {
    if index == [] then 0
    else if index[0] in ids && ids[index[0]] == id && index[0] != 0 then index[0]
    else Find(ids, index[1..], id)
  }

  /** A free address, for an element that is to carry the id x: x itself if nothing is there. */
  function FirstFree(used: set<ElementId>, x: ElementId): (k: ElementId)
    ensures k >= x && k !in used && (x !in used ==> k == x)
    decreases |used|
  {
    if x in used then
      assert used == (used - {x}) + {x};
      FirstFree(used - {x}, x + 1)
    else x
  }

  ghost function Found(t: Target, id: ElementId): ElementId {
    Find(t.ids, t.index, id)
  }

  ghost predicate Has(t: Target, id: ElementId) {
    var k := Found(t, id);
    k != 0 && k in t.o.kids && k in t.o.kind && k in t.o.text
  }

  /** Every element is at the address that is its id. */
  ghost predicate Plain(t: Target, o: Outline) {
    && t.o == o && o.kind.Keys == o.kids.Keys && o.text.Keys == o.kids.Keys && 0 !in o.kids
    && t.ids.Keys == o.kids.Keys && (forall k :: k in t.ids ==> t.ids[k] == k)
    && (forall k :: k in t.index <==> k in o.kids)
  }

  lemma {:induction false} FindPlain(ids: map<ElementId, ElementId>, index: seq<ElementId>, id: ElementId)
    requires forall k :: k in ids ==> ids[k] == k
    ensures Find(ids, index, id) == if id in index && id in ids then id else 0
  {
    if index != [] {
      FindPlain(ids, index[1..], id);
      assert index == [index[0]] + index[1..];
    }
  }

  lemma PlainHas(t: Target, o: Outline, id: ElementId)
    requires Plain(t, o)
    ensures Has(t, id) <==> id in o.kids
    ensures Has(t, id) ==> Found(t, id) == id
  {
    FindPlain(t.ids, t.index, id);
  }

  // ----- what one journal item does to the target -----

  ghost predicate Path(o: Outline, path: seq<ElementId>) {
    |path| > 0 && forall k :: 0 <= k < |path| ==> Edge(o, path, k)
  }

  ghost predicate Edge(o: Outline, path: seq<ElementId>, k: nat) {
    k + 1 < |path| ==> HasFather(o, path[k + 1], path[k])
  }

  ghost predicate Below(o: Outline, x: ElementId, y: ElementId) {
    exists path :: Path(o, path) && path[0] == x && path[|path| - 1] == y
  }

  ghost function Subtree(o: Outline, x: ElementId): set<ElementId> {
    set y | y in o.kids && Below(o, x, y)
  }

  function Minus(s: seq<ElementId>, gone: set<ElementId>): seq<ElementId> {
    if s == [] then [] else (if s[0] in gone then [] else [s[0]]) + Minus(s[1..], gone)
  }

  lemma MinusOne(a: seq<ElementId>, x: ElementId, b: seq<ElementId>)
    requires x !in a && x !in b
    ensures Minus(a + [x] + b, {x}) == a + b
  {
    hide Minus;
    assert a + [x] + b == a + ([x] + b);
    MinusSplit(a, [x] + b, {x});
    MinusSplit([x], b, {x});
    MinusNone(a, {x});
    MinusNone(b, {x});
    MinusItself(x);
  }

  lemma MinusItself(x: ElementId)
    ensures Minus([x], {x}) == []
  {
  }

  lemma {:induction false} MinusSplit(a: seq<ElementId>, b: seq<ElementId>, gone: set<ElementId>)
    ensures Minus(a + b, gone) == Minus(a, gone) + Minus(b, gone)
  {
    if a == [] {
      assert a + b == b;
    } else {
      assert (a + b)[1..] == a[1..] + b;
      MinusSplit(a[1..], b, gone);
    }
  }

  lemma {:induction false} MinusNone(s: seq<ElementId>, gone: set<ElementId>)
    requires forall y :: y in s ==> y !in gone
    ensures Minus(s, gone) == s
  {
    if s != [] {
      MinusNone(s[1..], gone);
    }
  }

  lemma {:induction false} MinusItems(s: seq<ElementId>, gone: set<ElementId>, y: ElementId)
    ensures y in Minus(s, gone) <==> y in s && y !in gone
  {
    if s != [] {
      MinusItems(s[1..], gone, y);
      assert s == [s[0]] + s[1..];
    }
  }

  /** The outline without an element and everything below it. */
  ghost function Cut(o: Outline, x: ElementId): Outline {
    var gone := Subtree(o, x);
    Outline(map p | p in o.kids && p !in gone :: Minus(o.kids[p], gone), o.kind - gone, o.text - gone)
  }

  ghost predicate HasPlace(o: Outline, mode: Mode, b: ElementId) {
    exists f, n: nat :: Place(o, mode, b, f, n)
  }

  ghost function PutAt(o: Outline, mode: Mode, b: ElementId, x: ElementId): Outline {
    if HasPlace(o, mode, b) then
      var f, n: nat :| Place(o, mode, b, f, n);
      Put(o, f, n, x)
    else o
  }

  /** The text that a replayed insert gives: only text nodes get theirs. */
  ghost function NewText(source: Target, xk: ElementId): string
    requires xk in source.o.kind && xk in source.o.text
  {
    if source.o.kind[xk].Text? then source.o.text[xk] else ""
  }

  /** applyJournalCreateElement: one more element with the id, whether or not one is there already. */
  ghost function Created(t: Target, mode: Mode, bk: ElementId, id: ElementId, kind: Kind, text: string): Target {
    var k := FirstFree(t.o.kids.Keys, id);
    Target(PutAt(Added(t.o, k, kind, text), mode, bk, k), t.ids[k := id], t.index + [k])
  }

  /** The document without an element and everything below it, and without their places in the index. */
  ghost function Pruned(t: Target, k: ElementId): Target {
    var gone := Subtree(t.o, k);
    Target(Cut(t.o, k), t.ids - gone, Minus(t.index, gone))
  }

  /** applyJournal, one item. An item whose base is missing in the target is skipped, and so is one whose
      alternate element is gone from the source; kinds and texts come from the source as it is now. */
  ghost function Apply(t: Target, e: Entry, source: Target): Target {
    match e
    case InsertItem(mode, b, x) =>
      if Has(t, b) && Has(source, x)
      then var xk := Found(source, x);
          Created(t, mode, Found(t, b), x, MadeFrom(source.o.kind[xk]), NewText(source, xk))
      else t
    case RemoveItem(b) => if Has(t, b) then Pruned(t, Found(t, b)) else t
    case TextItem(b) =>
      if Has(t, b) && Has(source, b)
      then t.(o := t.o.(text := t.o.text[Found(t, b) := source.o.text[Found(source, b)]]))
      else t
  }

  ghost function Replayed(t: Target, entries: seq<Entry>, source: Target): Target {
    if entries == [] then t else Apply(Replayed(t, entries[..|entries| - 1], source), entries[|entries| - 1], source)
  }

  // ----- what rebuilding the source means -----

  /** The source without elements that were created and are not linked. */
  ghost predicate Attached(first: Outline, o: Outline, y: ElementId) {
    y in o.kids && (y in first.kids || IsLinked(o, y))
  }

  /** The child list of an element, told by the ids that the children carry. */
  ghost predicate SameList(t: Target, s: seq<ElementId>, kids: seq<ElementId>) {
    |s| == |kids| && forall i :: 0 <= i < |s| ==> s[i] in t.ids && t.ids[s[i]] == kids[i]
  }

  /** The element at k is what the source's element y is. */
  ghost predicate SameElement(t: Target, k: ElementId, source: Outline, y: ElementId) {
    && k in t.o.kids && k in t.o.kind && k in t.o.text && y in source.kids && y in source.kind && y in source.text
    && SameList(t, t.o.kids[k], source.kids[y]) && t.o.kind[k] == source.kind[y]
    && (Textual(source.kind[y]) ==> t.o.text[k] == source.text[y])
  }

  /** The target has the attached elements of the source, each once, with the same child lists, kinds and texts. */
  ghost predicate Rebuilt(first: Outline, source: Outline, t: Target) {
    && (forall k :: k in t.o.kids ==>
          k in t.ids && Attached(first, source, t.ids[k]) && SameElement(t, k, source, t.ids[k]))
    && (forall y :: Attached(first, source, y) ==> Carried(t, y))
    && (forall k, l :: k in t.o.kids && l in t.o.kids && k in t.ids && l in t.ids && t.ids[k] == t.ids[l] ==> k == l)
  }

  ghost predicate Carried(t: Target, y: ElementId) {
    exists k :: k in t.o.kids && k in t.ids && t.ids[k] == y
  }

  // ----- when replay rebuilds the source -----

  /** The ids in the target after i steps, if the source is as it was after step n: an insert adds its element if the
      base is there and the source still has the element; a removal takes it away. */
  ghost function There(run: seq<Outline>, steps: seq<Step>, n: nat, i: nat): set<ElementId>
    requires i <= n <= |steps| < |run|
    decreases i, 0
  {
    if i == 0 then run[0].kids.Keys
    else if Comes(run, steps, n, i - 1) then There(run, steps, n, i - 1) + {steps[i - 1].x}
    else if steps[i - 1].Rem? then There(run, steps, n, i - 1) - {steps[i - 1].x}
    else There(run, steps, n, i - 1)
  }

  /** Step i inserts an element that the source will keep next to or into one that is there. */
  ghost predicate Comes(run: seq<Outline>, steps: seq<Step>, n: nat, i: nat)
    requires i < n <= |steps| < |run|
    decreases i, 1
  {
    steps[i].Ins? && steps[i].base in There(run, steps, n, i) && steps[i].x in run[n].kids
  }

  /** Step i moves nothing of what is there: no element comes twice, none gets or loses a father. */
  ghost predicate Steady(run: seq<Outline>, steps: seq<Step>, n: nat, i: nat)
    requires i < n <= |steps| < |run|
  {
    && (Comes(run, steps, n, i) ==> steps[i].x !in There(run, steps, n, i))
    && (forall z, f ::
          z in There(run, steps, n, i) && z in There(run, steps, n, i + 1) && f in There(run, steps, n, i + 1) ==>
          (HasFather(run[i + 1], z, f) <==> f in There(run, steps, n, i) && HasFather(run[i], z, f)))
  }

  ghost predicate NoMove(run: seq<Outline>, steps: seq<Step>, n: nat)
    requires n <= |steps| < |run|
  {
    forall i :: 0 <= i < n ==> Steady(run, steps, n, i)
  }

  /** The elements that are there at the end are the attached ones of the source. */
  ghost predicate AllThere(run: seq<Outline>, steps: seq<Step>, n: nat)
    requires n <= |steps| < |run|
  {
    forall y :: y in There(run, steps, n, n) <==> Attached(run[0], run[n], y)
  }

  /** The text of a textual element of the fork is as it was, or the journal tells of it. */
  ghost predicate TextsTold(run: seq<Outline>, steps: seq<Step>, n: nat)
    requires n <= |steps| < |run|
  {
    forall y :: y in run[0].kids && y in run[n].kids ==> TextTold(run, steps, n, y)
  }

  ghost predicate TextTold(run: seq<Outline>, steps: seq<Step>, n: nat, y: ElementId)
    requires n <= |steps| < |run|
  {
    y in run[0].text && y in run[n].text && y in run[n].kind && Textual(run[n].kind[y]) ==>
      run[n].text[y] == run[0].text[y] || TextItem(y) in Journal(run, steps[..n])
  }

  /** Nothing that came is a comment or a processing instruction: what an insert makes of these is hollow. */
  ghost predicate KindsTold(run: seq<Outline>, steps: seq<Step>, n: nat)
    requires n <= |steps| < |run|
  {
    forall y :: y in There(run, steps, n, n) && y !in run[0].kids && y in run[n].kind ==>
        MadeFrom(run[n].kind[y]) == run[n].kind[y]
  }

  // ----- runs -----

  lemma {:induction false} RunKeeps(run: seq<Outline>, steps: seq<Step>, i: nat)
    requires RunOk(run, steps) && i <= |steps|
    ensures OutlineOk(run[i])
  {
    if i > 0 {
      RunKeeps(run, steps, i - 1);
      StepKeeps(run[i - 1], steps[i - 1], run[i]);
    }
  }

  lemma StepAt(run: seq<Outline>, steps: seq<Step>, i: nat)
    requires RunOk(run, steps) && i < |steps|
    ensures OutlineOk(run[i]) && OutlineOk(run[i + 1]) && StepOk(run[i], steps[i], run[i + 1])
  {
    hide StepOk, OutlineOk;
    RunKeeps(run, steps, i);
    RunKeeps(run, steps, i + 1);
  }

  lemma StepStays(o: Outline, s: Step, o': Outline, y: ElementId)
    requires OutlineOk(o) && StepOk(o, s, o')
    ensures y in o'.kids ==> y in o.kids || (s.New? && s.x == y)
    ensures y in o.kids ==> y in o'.kids <==> !(s.Rem? && s.x == y)
    ensures y in o.kids && y in o'.kids ==> y in o.kind && y in o'.kind && o'.kind[y] == o.kind[y]
  {
    StepKeeps(o, s, o');
  }

  /** An element that is there at two moments was there in between, with the same kind. */
  lemma {:induction false} Stays(run: seq<Outline>, steps: seq<Step>, i: nat, k: nat, j: nat, y: ElementId)
    requires RunOk(run, steps) && i <= k <= j <= |steps| && y in run[i].kids && y in run[j].kids
    ensures y in run[k].kids && y in run[k].kind && y in run[j].kind && run[j].kind[y] == run[k].kind[y]
    decreases j
  {
    hide StepOk, OutlineOk;
    RunKeeps(run, steps, j);
    KindKnown(run[j], y);
    if k < j {
      StepAt(run, steps, j - 1);
      StepStays(run[j - 1], steps[j - 1], run[j], y);
      if y !in run[j - 1].kids {
        assert false;
      }
      Stays(run, steps, i, k, j - 1, y);
    }
  }

  lemma KindKnown(o: Outline, y: ElementId)
    requires OutlineOk(o) && y in o.kids
    ensures y in o.kind && y in o.text
  {
  }
}
