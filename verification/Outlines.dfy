/** Runs of edits on a document, seen as child lists and texts, and the journal they leave. */
module Outlines {
  import opened DomTree

  /** The child lists of all elements, attached or not, with their kinds and texts. */
  datatype Outline = Outline(kids: Kids, kind: map<ElementId, Kind>, text: map<ElementId, string>)

  datatype Mode = InsertChild | AppendChild | InsertBefore | InsertAfter

  /** One edit; deleting an element is one `Rem` per element, children first. A move is `Unlink`, then `Ins`. */
  datatype Step =
    | New(x: ElementId, kind: Kind, text: string)
    | Ins(mode: Mode, base: ElementId, x: ElementId)
    | Rem(x: ElementId)
    | Unlink(x: ElementId)
    | Txt(x: ElementId, text: string)

  /** JournalItem: operation, base element and alternate element. */
  datatype Entry =
    | InsertItem(mode: Mode, base: ElementId, alt: ElementId)
    | RemoveItem(base: ElementId)
    | TextItem(base: ElementId)

  // ----- well-formed outlines -----

  ghost predicate HasFather(o: Outline, y: ElementId, f: ElementId) {
    f in o.kids && y in o.kids[f]
  }

  ghost predicate IsLinked(o: Outline, y: ElementId) {
    exists f :: HasFather(o, y, f)
  }

  ghost predicate NoDup(s: seq<ElementId>) {
    forall i, j :: 0 <= i < j < |s| ==> s[i] != s[j]
  }

  ghost predicate OutlineOk(o: Outline) {
    && o.kind.Keys == o.kids.Keys && o.text.Keys == o.kids.Keys && 0 !in o.kids
    && (forall p :: p in o.kids ==> NoDup(o.kids[p]))
    && (forall p, y :: HasFather(o, y, p) ==> y in o.kids)
    && (forall p, q, y :: HasFather(o, y, p) && HasFather(o, y, q) ==> p == q)
  }

  // ----- steps -----

  /** Where the four inserts put a new element: at place n of f's child list. */
  ghost predicate Place(o: Outline, mode: Mode, b: ElementId, f: ElementId, n: nat) {
    && f in o.kids && n <= |o.kids[f]|
    && match mode
       case InsertChild => f == b && n == 0
       case AppendChild => f == b && n == |o.kids[f]|
       case InsertBefore => n < |o.kids[f]| && o.kids[f][n] == b
       case InsertAfter => n > 0 && o.kids[f][n - 1] == b
  }

  ghost function Put(o: Outline, f: ElementId, n: nat, x: ElementId): Outline
    requires f in o.kids && n <= |o.kids[f]|
  {
    o.(kids := o.kids[f := InsertAt(o.kids[f], n, x)])
  }

  ghost function Added(o: Outline, x: ElementId, kind: Kind, text: string): Outline {
    Outline(o.kids[x := []], o.kind[x := kind], o.text[x := text])
  }

  ghost function Dropped(o: Outline, f: ElementId, n: nat, x: ElementId): Outline
    requires f in o.kids && n < |o.kids[f]|
  {
    Outline(o.kids[f := RemoveAt(o.kids[f], n)] - {x}, o.kind - {x}, o.text - {x})
  }

  ghost predicate PutInto(o: Outline, mode: Mode, b: ElementId, x: ElementId, f: ElementId, n: nat, o': Outline) {
    f != x && Place(o, mode, b, f, n) && f in o.kind && !Textual(o.kind[f]) && o' == Put(o, f, n, x)
  }

  ghost predicate DroppedFrom(o: Outline, x: ElementId, f: ElementId, n: nat, o': Outline) {
    f != x && f in o.kids && n < |o.kids[f]| && o.kids[f][n] == x && o' == Dropped(o, f, n, x)
  }

  ghost predicate UnlinkedFrom(o: Outline, x: ElementId, f: ElementId, n: nat, o': Outline) {
    f in o.kids && n < |o.kids[f]| && o.kids[f][n] == x && o' == o.(kids := o.kids[f := RemoveAt(o.kids[f], n)])
  }

  ghost predicate StepOk(o: Outline, s: Step, o': Outline) {
    match s
    case New(x, kind, text) =>
      x != 0 && x !in o.kids && o' == Added(o, x, kind, text)
    case Ins(mode, b, x) =>
      && x in o.kids && !IsLinked(o, x) && b in o.kids && b != x
      && exists f, n: nat :: PutInto(o, mode, b, x, f, n, o')
    case Rem(x) =>
      && x in o.kids && o.kids[x] == []
      && exists f, n: nat :: DroppedFrom(o, x, f, n, o')
    case Unlink(x) =>
      exists f, n: nat :: UnlinkedFrom(o, x, f, n, o')
    case Txt(x, text) =>
      x in o.kids && x in o.kind && Textual(o.kind[x]) && o' == o.(text := o.text[x := text])
  }

  ghost predicate StepsOk(run: seq<Outline>, steps: seq<Step>) {
    |run| == |steps| + 1 && forall i :: 0 <= i < |steps| ==> StepOk(run[i], steps[i], run[i + 1])
  }

  /** A run of edits; the ids of new elements were never used before. */
  ghost predicate RunOk(run: seq<Outline>, steps: seq<Step>) {
    && StepsOk(run, steps) && OutlineOk(run[0])
    && (forall i, k :: 0 <= k <= i < |steps| && steps[i].New? ==> steps[i].x !in run[k].kids)
  }

  /** What a step appends to the journal: neither unlinking an element nor setting the text of one without a father
      is journaled. */
  ghost function EntryOf(o: Outline, s: Step): seq<Entry> {
    match s
    case New(_, _, _) => []
    case Ins(mode, b, x) => [InsertItem(mode, b, x)]
    case Rem(x) => [RemoveItem(x)]
    case Unlink(_) => []
    case Txt(x, _) => if IsLinked(o, x) then [TextItem(x)] else []
  }

  ghost function Journal(run: seq<Outline>, steps: seq<Step>): seq<Entry>
    requires |run| >= |steps|
  {
    if steps == [] then [] else Journal(run, steps[..|steps| - 1]) + EntryOf(run[|steps| - 1], steps[|steps| - 1])
  }

  // ----- what steps keep -----

  lemma PutOk(o: Outline, f: ElementId, n: nat, x: ElementId)
    requires OutlineOk(o) && f in o.kids && n <= |o.kids[f]| && x in o.kids && !IsLinked(o, x)
    ensures OutlineOk(Put(o, f, n, x))
    ensures forall y, p :: HasFather(Put(o, f, n, x), y, p) <==> HasFather(o, y, p) || (y == x && p == f)
  {
    var o' := Put(o, f, n, x);
    forall y, p
      ensures HasFather(o', y, p) <==> HasFather(o, y, p) || (y == x && p == f)
    {
      if p == f {
        InsertAtItems(o.kids[f], n, x, y);
      }
    }
    assert !HasFather(o, x, f);
    InsertNoDup(o.kids[f], n, x);
  }

  lemma InsertAtItems(s: seq<ElementId>, n: nat, x: ElementId, y: ElementId)
    requires n <= |s|
    ensures y in InsertAt(s, n, x) <==> y in s || y == x
  {
    assert s == s[..n] + s[n..];
  }

  lemma InsertNoDup(s: seq<ElementId>, n: nat, x: ElementId)
    requires n <= |s| && NoDup(s) && x !in s
    ensures NoDup(InsertAt(s, n, x))
  {
    var t := InsertAt(s, n, x);
    forall i, j | 0 <= i < j < |t|
      ensures t[i] != t[j]
    {
      var a, b := if i < n then i else i - 1, if j < n then j else j - 1;
      assert i != n ==> t[i] == s[a];
      assert j != n ==> t[j] == s[b];
    }
  }

  lemma RemoveItems(s: seq<ElementId>, n: nat, y: ElementId)
    requires n < |s| && NoDup(s)
    ensures y in RemoveAt(s, n) <==> y in s && y != s[n]
    ensures NoDup(RemoveAt(s, n))
  {
    var t := RemoveAt(s, n);
    forall i | 0 <= i < |t|
      ensures t[i] == s[if i < n then i else i + 1]
    {
    }
    StillIn(s, n, y);
  }

  lemma DropOk(o: Outline, f: ElementId, n: nat, x: ElementId)
    requires OutlineOk(o) && f in o.kids && n < |o.kids[f]| && o.kids[f][n] == x && f != x && x in o.kids
          && o.kids[x] == []
    ensures OutlineOk(Dropped(o, f, n, x))
    ensures forall y, p :: HasFather(Dropped(o, f, n, x), y, p) <==> HasFather(o, y, p) && y != x
  {
    hide RemoveAt;
    assert HasFather(o, x, f);
    RemoveItems(o.kids[f], n, x);
    forall y, p
      ensures HasFather(Dropped(o, f, n, x), y, p) <==> HasFather(o, y, p) && y != x
    {
      DropFather(o, f, n, x, y, p);
    }
  }

  lemma DropFather(o: Outline, f: ElementId, n: nat, x: ElementId, y: ElementId, p: ElementId)
    requires OutlineOk(o) && f in o.kids && n < |o.kids[f]| && o.kids[f][n] == x && f != x && x in o.kids
          && o.kids[x] == []
    ensures HasFather(Dropped(o, f, n, x), y, p) <==> HasFather(o, y, p) && y != x
  {
    hide RemoveAt;
    assert HasFather(o, x, f);
    if p == f {
      RemoveItems(o.kids[f], n, y);
      assert HasFather(Dropped(o, f, n, x), y, f) <==> y in RemoveAt(o.kids[f], n);
      assert HasFather(o, y, f) <==> y in o.kids[f];
    } else if p in o.kids && p != x {
      assert Dropped(o, f, n, x).kids[p] == o.kids[p];
      assert y == x ==> !HasFather(o, y, p);
    }
  }

  lemma UnlinkOk(o: Outline, f: ElementId, n: nat, x: ElementId)
    requires OutlineOk(o) && f in o.kids && n < |o.kids[f]| && o.kids[f][n] == x
    ensures var o' := o.(kids := o.kids[f := RemoveAt(o.kids[f], n)]);
            OutlineOk(o') && forall y, p :: HasFather(o', y, p) <==> HasFather(o, y, p) && y != x
  {
    hide RemoveAt;
    var o' := o.(kids := o.kids[f := RemoveAt(o.kids[f], n)]);
    assert HasFather(o, x, f);
    RemoveItems(o.kids[f], n, x);
    forall y, p
      ensures HasFather(o', y, p) <==> HasFather(o, y, p) && y != x
    {
      AfterUnlink(o, f, n, x, y, p);
    }
  }

  lemma AfterUnlink(o: Outline, f: ElementId, n: nat, x: ElementId, y: ElementId, p: ElementId)
    requires OutlineOk(o) && f in o.kids && n < |o.kids[f]| && o.kids[f][n] == x
    ensures HasFather(o.(kids := o.kids[f := RemoveAt(o.kids[f], n)]), y, p) <==> HasFather(o, y, p) && y != x
  {
    hide RemoveAt;
    assert HasFather(o, x, f);
    if p == f {
      RemoveItems(o.kids[f], n, y);
    } else if p in o.kids {
      assert y == x ==> !HasFather(o, y, p);
    }
  }

  /** Whose father a step may change. */
  ghost predicate Hangs(s: Step, y: ElementId) {
    (s.Ins? || s.Unlink?) && s.x == y
  }

  /** A step keeps outlines well-formed; elements that stay keep their father, unless they are inserted or unlinked. */
  lemma StepKeeps(o: Outline, s: Step, o': Outline)
    requires OutlineOk(o) && StepOk(o, s, o')
    ensures OutlineOk(o')
    ensures forall y :: y in o'.kids ==> y in o.kids || (s.New? && s.x == y)
    ensures forall y :: y in o.kids ==> (y in o'.kids <==> !(s.Rem? && s.x == y))
    ensures forall y, p :: y in o'.kids && !Hangs(s, y) ==> (HasFather(o', y, p) <==> HasFather(o, y, p))
    ensures forall y :: y in o.kids && y in o'.kids ==> o'.kind[y] == o.kind[y]
  {
    match s
    case New(x, kind, text) =>
      assert forall y, p :: HasFather(o', y, p) <==> HasFather(o, y, p);
    case Ins(mode, b, x) =>
      var f, n: nat :| PutInto(o, mode, b, x, f, n, o');
      PutOk(o, f, n, x);
    case Rem(x) =>
      var f, n: nat :| DroppedFrom(o, x, f, n, o');
      DropOk(o, f, n, x);
    case Unlink(x) =>
      var f, n: nat :| UnlinkedFrom(o, x, f, n, o');
      UnlinkOk(o, f, n, x);
    case Txt(x, text) =>
      assert forall y, p :: HasFather(o', y, p) <==> HasFather(o, y, p);
  }
}
