/** Moves: the journal tells of the insert, but not that the element left its old place. A replica that is rebuilt at
    every moment has seen none. */
module Moves {
  import opened DomTree
  import opened JournalTheorem
  import opened Outlines
  import opened Replay
  import opened Simulation

  // ----- one more step of the source -----

  /** What comes when the source has taken one more step came before. */
  lemma ComesLess(run: seq<Outline>, steps: seq<Step>, n: nat, i: nat)
    requires RunOk(run, steps) && i < n < |steps| && There(run, steps, n + 1, i) <= There(run, steps, n, i)
    ensures Comes(run, steps, n + 1, i) ==> Comes(run, steps, n, i)
  {
    hide OutlineOk, There;
    if Comes(run, steps, n + 1, i) {
      StepAt(run, steps, i);
      var f, k := InsIs(run[i], steps[i], run[i + 1]);
      StepAt(run, steps, n);
      StepStays(run[n], steps[n], run[n + 1], steps[i].x);
    }
  }

  lemma {:induction false} ThereLess(run: seq<Outline>, steps: seq<Step>, n: nat, i: nat)
    requires RunOk(run, steps) && i <= n < |steps|
    ensures There(run, steps, n + 1, i) <= There(run, steps, n, i)
  {
    hide StepOk, OutlineOk, Comes;
    if i > 0 {
      ThereLess(run, steps, n, i - 1);
      ComesLess(run, steps, n, i - 1);
    }
  }

  lemma SteadyLess(run: seq<Outline>, steps: seq<Step>, n: nat, i: nat)
    requires RunOk(run, steps) && i < n < |steps| && Steady(run, steps, n, i)
    ensures Steady(run, steps, n + 1, i)
  {
    hide StepOk, OutlineOk, HasFather, Comes;
    ThereLess(run, steps, n, i);
    ThereLess(run, steps, n, i + 1);
    ComesLess(run, steps, n, i);
  }

  // ----- the first move is seen at once -----

  /** What a rebuilt document has below an element is what the source has there. */
  lemma ListIs(first: Outline, source: Outline, t: Target, f: ElementId, x: ElementId)
    requires Rebuilt(first, source, t) && f in t.o.kids && f in t.ids && t.ids[f] == f
    ensures x in t.o.kids[f] && x in t.ids ==> HasFather(source, t.ids[x], f)
    ensures t.o.kids[f] == [] ==> f in source.kids && source.kids[f] == []
  {
    assert SameElement(t, f, source, f);
  }

  /** The other way round, while every id is an address. */
  lemma ListIsBack(first: Outline, source: Outline, t: Target, f: ElementId, x: ElementId)
    requires Rebuilt(first, source, t) && Plain(t, t.o) && f in t.o.kids && HasFather(source, x, f)
    ensures HasFather(t.o, x, f)
  {
    assert SameElement(t, f, source, f);
    var i :| 0 <= i < |source.kids[f]| && source.kids[f][i] == x;
    assert t.o.kids[f][i] == x;
  }

  lemma UnlinkSteady(run: seq<Outline>, steps: seq<Step>, n: nat, t: Target)
    requires RunOk(run, steps) && n < |steps| && steps[n].Unlink? && Plain(t, t.o)
          && Follows(run[n], There(run, steps, n + 1, n), t.o)
    requires Rebuilt(run[0], run[n + 1], t)
    ensures Steady(run, steps, n + 1, n)
  {
    hide OutlineOk, StepOk, Rebuilt, HasFather, Follows;
    var there := There(run, steps, n + 1, n);
    StepAt(run, steps, n);
    var f, k := UnlinkIs(run[n], steps[n], run[n + 1]);
    TargetKeys(run[n], there, t.o);
    NotComing(run, steps, n + 1, n);
    if steps[n].x in there && f in there {
      FatherIs(run[n], there, t.o, steps[n].x, f);
      StillUnder(run[0], run[n + 1], t, steps[n].x, f);
      assert false;
    }
    OneFather(run[n], steps[n].x, f);
  }

  lemma OneFather(o: Outline, x: ElementId, f: ElementId)
    requires OutlineOk(o) && HasFather(o, x, f)
    ensures forall p :: HasFather(o, x, p) ==> p == f
  {
  }

  lemma StillUnder(first: Outline, source: Outline, t: Target, x: ElementId, f: ElementId)
    requires Rebuilt(first, source, t) && Plain(t, t.o) && HasFather(t.o, x, f) && x in t.o.kids
    ensures HasFather(source, x, f)
  {
    hide Rebuilt;
    ListIs(first, source, t, f, x);
  }

  /** Two elements that carry one id. */
  ghost predicate Twice(t: Target, k: ElementId, l: ElementId) {
    k != l && k in t.o.kids && l in t.o.kids && k in t.ids && l in t.ids && t.ids[k] == t.ids[l]
  }

  lemma TwiceIsNotRebuilt(first: Outline, source: Outline, t: Target, k: ElementId, l: ElementId)
    requires Twice(t, k, l)
    ensures !Rebuilt(first, source, t)
  {
    hide SameElement, Attached;
  }

  /** Creating an element under an id that is there. */
  lemma CreatedTwice(t: Target, mode: Mode, bk: ElementId, id: ElementId, kind: Kind, text: string, k: ElementId)
    requires k in t.o.kids && k in t.ids && t.ids[k] == id
    ensures Twice(Created(t, mode, bk, id, kind, text), k, FirstFree(t.o.kids.Keys, id))
  {
    hide PutAt;
    PutAtDomains(Added(t.o, FirstFree(t.o.kids.Keys, id), kind, text), mode, bk, FirstFree(t.o.kids.Keys, id));
  }

  /** The element that comes is not there yet. */
  lemma ComesOnce(run: seq<Outline>, steps: seq<Step>, n: nat, t: Target, source: Target)
    requires RunOk(run, steps) && n < |steps| && Comes(run, steps, n + 1, n) && Plain(source, run[n + 1])
    requires Plain(t, t.o) && t.o.kids.Keys == There(run, steps, n + 1, n)
    requires Rebuilt(run[0], run[n + 1], Apply(t, InsertItem(steps[n].mode, steps[n].base, steps[n].x), source))
    ensures steps[n].x !in There(run, steps, n + 1, n)
  {
    hide OutlineOk, StepOk, Rebuilt, Created, Twice, Has, Found, There;
    var x, b := steps[n].x, steps[n].base;
    PlainHas(t, t.o, b);
    PlainHas(source, run[n + 1], x);
    if x in t.o.kids {
      CreatedTwice(t, steps[n].mode, Found(t, b), x, MadeFrom(source.o.kind[Found(source, x)]),
          NewText(source, Found(source, x)), x);
      TwiceIsNotRebuilt(run[0], run[n + 1], Apply(t, InsertItem(steps[n].mode, b, x), source), x,
          FirstFree(t.o.kids.Keys, x));
    }
  }

  lemma NoChildYet(o: Outline, there: set<ElementId>, t: Outline, mode: Mode, b: ElementId, x: ElementId, kind: Kind,
      text: string, f: ElementId, n: nat)
    requires OutlineOk(o) && Follows(o, there, t) && Place(o, mode, b, f, n) && b in there && x !in there && f != x
    ensures var t' := PutAt(Added(t, x, kind, text), mode, b, x); x in t'.kids && t'.kids[x] == []
  {
    hide OutlineOk, Filter, PutAt, Place;
    PlaceInTarget(o, there, t, mode, b, x, kind, text, f, n);
    TargetKeys(o, there, t);
  }

  /** The element that comes has nothing below it. */
  lemma ComesBare(run: seq<Outline>, steps: seq<Step>, n: nat, t: Target, source: Target)
    requires RunOk(run, steps) && n < |steps| && Comes(run, steps, n + 1, n) && Plain(source, run[n + 1])
    requires Plain(t, t.o) && Follows(run[n], There(run, steps, n + 1, n), t.o)
          && steps[n].x !in There(run, steps, n + 1, n)
    requires Rebuilt(run[0], run[n + 1], Apply(t, InsertItem(steps[n].mode, steps[n].base, steps[n].x), source))
    ensures run[n + 1].kids.Keys >= {steps[n].x} && run[n + 1].kids[steps[n].x] == []
  {
    hide OutlineOk, StepOk, Rebuilt, PutAt, There, Follows, Filter, Found, Has, Created;
    var x, b, there := steps[n].x, steps[n].base, There(run, steps, n + 1, n);
    StepAt(run, steps, n);
    var f, k := InsIs(run[n], steps[n], run[n + 1]);
    PutIntoIs(run[n], steps[n].mode, b, x, f, k, run[n + 1]);
    TargetKeys(run[n], there, t.o);
    PlainHas(t, t.o, b);
    PlainHas(source, run[n + 1], x);
    OutlineKinds(run[n + 1]);
    var kind := MadeFrom(run[n + 1].kind[x]);
    NoChildYet(run[n], there, t.o, steps[n].mode, b, x, kind, NewText(source, x), f, k);
    PlainCreated(t, t.o, steps[n].mode, b, x, kind, NewText(source, x));
    var t' := Apply(t, InsertItem(steps[n].mode, b, x), source);
    PlainIs(t', PutAt(Added(t.o, x, kind, NewText(source, x)), steps[n].mode, b, x));
    ListIs(run[0], run[n + 1], t', x, x);
  }

  lemma InsSteady(run: seq<Outline>, steps: seq<Step>, n: nat, t: Target, source: Target)
    requires RunOk(run, steps) && n < |steps| && steps[n].Ins? && Plain(source, run[n + 1])
    requires Plain(t, t.o) && Follows(run[n], There(run, steps, n + 1, n), t.o)
    requires Rebuilt(run[0], run[n + 1], Apply(t, InsertItem(steps[n].mode, steps[n].base, steps[n].x), source))
    ensures Steady(run, steps, n + 1, n)
  {
    hide OutlineOk, StepOk, Rebuilt, HasFather, Follows, Apply, Place, PutInto, Plain, IsLinked;
    var x, there := steps[n].x, There(run, steps, n + 1, n);
    StepAt(run, steps, n);
    var f, k := InsIs(run[n], steps[n], run[n + 1]);
    TargetKeys(run[n], there, t.o);
    if Comes(run, steps, n + 1, n) {
      ComesOnce(run, steps, n, t, source);
      ComesBare(run, steps, n, t, source);
      NoKids(run[n + 1], x);
    } else {
      Fatherless(run[n], x);
      SkippedHere(run, steps, n, t, source, f);
    }
  }

  lemma NoKids(o: Outline, x: ElementId)
    requires x in o.kids && o.kids[x] == []
    ensures forall z :: !HasFather(o, z, x)
  {
  }

  /** An insert that is skipped leaves an element out that the target has. */
  lemma SkippedHere(run: seq<Outline>, steps: seq<Step>, n: nat, t: Target, source: Target, f: ElementId)
    requires RunOk(run, steps) && n < |steps| && steps[n].Ins? && Plain(source, run[n + 1])
          && !Comes(run, steps, n + 1, n)
    requires Plain(t, t.o) && Follows(run[n], There(run, steps, n + 1, n), t.o)
    requires HasFather(run[n + 1], steps[n].x, f) && !HasFather(run[n], steps[n].x, f)
    requires Rebuilt(run[0], run[n + 1], Apply(t, InsertItem(steps[n].mode, steps[n].base, steps[n].x), source))
    ensures !(steps[n].x in There(run, steps, n + 1, n) && f in There(run, steps, n + 1, n))
  {
    hide OutlineOk, StepOk, Rebuilt, HasFather, Follows, Created, Plain, Has, Found;
    var x, there := steps[n].x, There(run, steps, n + 1, n);
    TargetKeys(run[n], there, t.o);
    PlainHas(t, t.o, steps[n].base);
    PlainHas(source, run[n + 1], x);
    if x in there && f in there {
      ListIsBack(run[0], run[n + 1], t, f, x);
      FatherIs(run[n], there, t.o, x, f);
    }
  }

  lemma OtherSteady(run: seq<Outline>, steps: seq<Step>, n: nat)
    requires RunOk(run, steps) && n < |steps| && !steps[n].Ins? && !steps[n].Unlink?
    ensures Steady(run, steps, n + 1, n)
  {
    hide OutlineOk, StepOk, HasFather;
    StepAt(run, steps, n);
    StepKeeps(run[n], steps[n], run[n + 1]);
    ThereIsHere(run, steps, n + 1, n + 1);
  }

  /** The first step that moves anything leaves a source that the replay does not rebuild. */
  lemma NextSteady(start: Target, run: seq<Outline>, steps: seq<Step>, n: nat, source: Target)
    requires RunOk(run, steps) && n < |steps| && Plain(start, run[0]) && Plain(source, run[n + 1])
    requires NoMove(run, steps, n) && Rebuilt(run[0], run[n + 1], Replica(start, run, steps, source, n + 1))
    ensures NoMove(run, steps, n + 1)
  {
    hide OutlineOk, StepOk, Rebuilt, Steady, Follows, Apply, Replica, IsLinked, There;
    var m := n + 1;
    forall k | 0 <= k < n
      ensures Steady(run, steps, m, k)
    {
      assert Steady(run, steps, n, k);
      SteadyLess(run, steps, n, k);
    }
    ReplicaMirrors(start, run, steps, m, source, n);
    ReplicaStep(start, run, steps, source, n + 1);
    var t := Replica(start, run, steps, source, n);
    if steps[n].Ins? {
      InsSteady(run, steps, n, t, source);
    } else if steps[n].Unlink? {
      UnlinkSteady(run, steps, n, t);
    } else {
      OtherSteady(run, steps, n);
    }
  }

  // ----- at every moment -----

  /** Nothing was moved up to step n, and then the attached elements are there, and the texts and kinds told. */
  ghost predicate Good(run: seq<Outline>, steps: seq<Step>, n: nat)
    requires n <= |steps| < |run|
  {
    NoMove(run, steps, n) && AllThere(run, steps, n) && TextsTold(run, steps, n) && KindsTold(run, steps, n)
  }

  ghost predicate RebuiltAt(start: Target, run: seq<Outline>, steps: seq<Step>, sources: seq<Target>, n: nat)
    requires n <= |steps| < |run| && n < |sources|
  {
    Rebuilt(run[0], run[n], Replica(start, run, steps, sources[n], n))
  }

  lemma {:induction false} RebuiltUpTo(start: Target, run: seq<Outline>, steps: seq<Step>, sources: seq<Target>, n: nat)
    requires RunOk(run, steps) && n <= |steps| < |sources| && Plain(start, run[0])
    requires forall i :: 0 <= i <= |steps| ==> Plain(sources[i], run[i])
    requires forall i :: 0 <= i <= n ==> RebuiltAt(start, run, steps, sources, i)
    ensures NoMove(run, steps, n)
  {
    hide OutlineOk, StepOk, Rebuilt, Steady, Replica;
    if n > 0 {
      RebuiltUpTo(start, run, steps, sources, n - 1);
      assert RebuiltAt(start, run, steps, sources, n);
      NextSteady(start, run, steps, n - 1, sources[n]);
    }
  }

  /** A run whatever it does: replaying its journal up to now rebuilds the source as it is now, at every moment, if and
      only if at every moment nothing that the replica has was moved, the attached elements are there, and the texts and
      kinds told. */
  lemma RebuiltThroughout(start: Target, run: seq<Outline>, steps: seq<Step>, sources: seq<Target>)
    requires RunOk(run, steps) && |sources| == |run| && Plain(start, run[0])
    requires forall n :: 0 <= n <= |steps| ==> Plain(sources[n], run[n])
    ensures (forall n :: 0 <= n <= |steps| ==> RebuiltAt(start, run, steps, sources, n)) <==>
          (forall n :: 0 <= n <= |steps| ==> Good(run, steps, n))
  {
    hide OutlineOk, StepOk, Rebuilt, NoMove, AllThere, TextsTold, KindsTold, Replica, Plain;
    forall n | 0 <= n <= |steps|
      ensures NoMove(run, steps, n) ==>
                (RebuiltAt(start, run, steps, sources, n) <==>
                   AllThere(run, steps, n) && TextsTold(run, steps, n) && KindsTold(run, steps, n))
    {
      ReplayRebuilds(start, run, steps, n, sources[n]);
    }
    if forall n :: 0 <= n <= |steps| ==> RebuiltAt(start, run, steps, sources, n) {
      forall n | 0 <= n <= |steps|
        ensures Good(run, steps, n)
      {
        RebuiltUpTo(start, run, steps, sources, n);
      }
    }
    if forall n :: 0 <= n <= |steps| ==> Good(run, steps, n) {
      forall n | 0 <= n <= |steps|
        ensures RebuiltAt(start, run, steps, sources, n)
      {
        assert Good(run, steps, n);
      }
    }
  }

  // ----- moves that are seen at the end -----

  /** A document in which every element carries an id, and these are the ids that are there. */
  ghost predicate Carries(t: Target, there: set<ElementId>) {
    && t.o.kind.Keys == t.o.kids.Keys && t.o.text.Keys == t.o.kids.Keys && t.ids.Keys == t.o.kids.Keys && 0 !in t.o.kids
    && (forall k :: k in t.index <==> k in t.o.kids) && (forall y :: y in there <==> Carried(t, y))
  }

  lemma {:induction false} FindAny(ids: map<ElementId, ElementId>, index: seq<ElementId>, k: ElementId)
    requires k in index && k in ids && k != 0
    ensures Find(ids, index, ids[k]) != 0
  {
    if index[0] != k {
      FindAny(ids, index[1..], k);
    }
  }

  lemma CarriesHas(t: Target, there: set<ElementId>, id: ElementId)
    requires Carries(t, there)
    ensures Has(t, id) <==> id in there
    ensures Has(t, id) ==> Found(t, id) in t.o.kids
  {
    if Carried(t, id) {
      var k :| k in t.o.kids && k in t.ids && t.ids[k] == id;
      FindAny(t.ids, t.index, k);
    }
  }

  lemma PlainCarries(t: Target, o: Outline)
    requires Plain(t, o)
    ensures Carries(t, o.kids.Keys)
  {
    forall y
      ensures y in o.kids.Keys <==> Carried(t, y)
    {
      if y in o.kids {
        assert t.ids[y] == y;
      }
    }
  }

  /** Nothing has gone, and no element has lost a child. */
  ghost predicate Grown(t: Target, t': Target) {
    forall k :: k in t.o.kids ==> NodeGrown(t, t', k)
  }

  ghost predicate NodeGrown(t: Target, t': Target, k: ElementId) {
    && k in t.o.kids && k in t'.o.kids && k in t.ids && k in t'.ids && t'.ids[k] == t.ids[k]
    && forall z :: z in t.o.kids[k] ==> z in t'.o.kids[k]
  }

  lemma GrownOn(t: Target, t': Target, t'': Target)
    requires Grown(t, t') && Grown(t', t'')
    ensures Grown(t, t'')
  {
    forall k | k in t.o.kids
      ensures NodeGrown(t, t'', k)
    {
      assert NodeGrown(t, t', k) && NodeGrown(t', t'', k);
    }
  }

  lemma GrownSelf(t: Target, there: set<ElementId>)
    requires Carries(t, there)
    ensures Grown(t, t)
  {
  }

  lemma PutAtGrows(o: Outline, mode: Mode, b: ElementId, x: ElementId, p: ElementId, z: ElementId)
    requires p in o.kids && z in o.kids[p]
    ensures p in PutAt(o, mode, b, x).kids && z in PutAt(o, mode, b, x).kids[p]
  {
    if HasPlace(o, mode, b) {
      var f, n: nat :| Place(o, mode, b, f, n) && PutAt(o, mode, b, x) == Put(o, f, n, x);
      if p == f {
        InsertAtItems(o.kids[f], n, x, z);
      }
    }
  }

  /** A created element, wherever it is put. */
  lemma CreatedKeys(t: Target, mode: Mode, bk: ElementId, id: ElementId, kind: Kind, text: string)
    ensures var (t', k) := (Created(t, mode, bk, id, kind, text), FirstFree(t.o.kids.Keys, id));
            && k !in t.o.kids && k >= id && t'.o.kids.Keys == t.o.kids.Keys + {k} && t'.ids == t.ids[k := id]
            && t'.index == t.index + [k]
            && t'.o.kind.Keys == t.o.kind.Keys + {k} && t'.o.text.Keys == t.o.text.Keys + {k}
  {
    hide PutAt;
    var k := FirstFree(t.o.kids.Keys, id);
    PutAtDomains(Added(t.o, k, kind, text), mode, bk, k);
  }

  lemma CreatedNode(t: Target, mode: Mode, bk: ElementId, id: ElementId, kind: Kind, text: string, p: ElementId)
    requires p in t.o.kids && t.ids.Keys == t.o.kids.Keys
    ensures NodeGrown(t, Created(t, mode, bk, id, kind, text), p)
  {
    hide PutAt;
    var k := FirstFree(t.o.kids.Keys, id);
    var t', t1 := Created(t, mode, bk, id, kind, text), Added(t.o, k, kind, text);
    PutAtDomains(t1, mode, bk, k);
    forall z | z in t.o.kids[p]
      ensures z in t'.o.kids[p]
    {
      PutAtGrows(t1, mode, bk, k, p, z);
    }
  }

  lemma CreatedGrows(t: Target, there: set<ElementId>, mode: Mode, bk: ElementId, id: ElementId, kind: Kind,
      text: string)
    requires Carries(t, there) && id != 0
    ensures Carries(Created(t, mode, bk, id, kind, text), there + {id})
          && Grown(t, Created(t, mode, bk, id, kind, text))
  {
    hide Created, Carried, NodeGrown;
    CreatedKeys(t, mode, bk, id, kind, text);
    CarriesMore(t, Created(t, mode, bk, id, kind, text), there, FirstFree(t.o.kids.Keys, id), id);
    forall p | p in t.o.kids
      ensures NodeGrown(t, Created(t, mode, bk, id, kind, text), p)
    {
      CreatedNode(t, mode, bk, id, kind, text, p);
    }
  }

  lemma CarriesMore(t: Target, t': Target, there: set<ElementId>, k: ElementId, id: ElementId)
    requires Carries(t, there) && id != 0 && k !in t.o.kids && k >= id && t'.o.kids.Keys == t.o.kids.Keys + {k}
          && t'.ids == t.ids[k := id]
    requires t'.index == t.index + [k] && t'.o.kind.Keys == t.o.kind.Keys + {k} && t'.o.text.Keys == t.o.text.Keys + {k}
    ensures Carries(t', there + {id})
  {
    hide Carried;
    forall y
      ensures y in there + {id} <==> Carried(t', y)
    {
      CarriedMore(t, t', k, id, y);
    }
    forall p
      ensures p in t'.index <==> p in t'.o.kids
    {
      OneMore(t.index, k, p);
    }
  }

  lemma OneMore(s: seq<ElementId>, k: ElementId, p: ElementId)
    ensures p in s + [k] <==> p in s || p == k
  {
  }

  lemma CarriedMore(t: Target, t': Target, k: ElementId, id: ElementId, y: ElementId)
    requires t'.o.kids.Keys == t.o.kids.Keys + {k} && k !in t.o.kids && t.ids.Keys == t.o.kids.Keys
          && t'.ids == t.ids[k := id]
    ensures Carried(t', y) <==> Carried(t, y) || y == id
  {
    if Carried(t, y) {
      var l :| l in t.o.kids && l in t.ids && t.ids[l] == y;
      assert l in t'.o.kids && t'.ids[l] == y;
    }
    assert k in t'.o.kids && t'.ids[k] == id;
  }

  lemma TextGrows(t: Target, there: set<ElementId>, b: ElementId, source: Target)
    requires Carries(t, there)
    ensures Carries(Apply(t, TextItem(b), source), there) && Grown(t, Apply(t, TextItem(b), source))
  {
    hide Has, Found;
    var t' := Apply(t, TextItem(b), source);
    CarriesHas(t, there, b);
    assert t'.o.kids == t.o.kids && t'.ids == t.ids && t'.index == t.index && t'.o.kind == t.o.kind
        && t'.o.text.Keys == t.o.text.Keys;
    assert forall y :: Carried(t', y) <==> Carried(t, y);
  }

  /** A step that removes nothing of what is there. */
  ghost predicate Leaves(run: seq<Outline>, steps: seq<Step>, n: nat, k: nat)
    requires k < n <= |steps| < |run|
  {
    steps[k].Rem? ==> steps[k].x !in There(run, steps, n, k)
  }

  lemma GrowStep(run: seq<Outline>, steps: seq<Step>, n: nat, k: nat, t: Target, source: Target)
    requires RunOk(run, steps) && k < n <= |steps| && Leaves(run, steps, n, k) && Plain(source, run[n])
          && Carries(t, There(run, steps, n, k))
    ensures var e := EntryOf(run[k], steps[k]);
            var t' := if e == [] then t else Apply(t, e[0], source);
            Carries(t', There(run, steps, n, k + 1)) && Grown(t, t')
  {
    hide StepOk, OutlineOk, Carries, Has, Found, Created, Pruned, Grown, IsLinked;
    var there := There(run, steps, n, k);
    GrownSelf(t, there);
    match steps[k]
    case New(_, _, _) =>
    case Unlink(_) =>
    case Ins(mode, b, x) =>
      CarriesHas(t, there, b);
      PlainHas(source, run[n], x);
      if Comes(run, steps, n, k) {
        RunKeeps(run, steps, n);
        OutlineKinds(run[n]);
        CreatedGrows(t, there, mode, Found(t, b), x, MadeFrom(source.o.kind[Found(source, x)]),
            NewText(source, Found(source, x)));
      }
    case Rem(x) =>
      CarriesHas(t, there, x);
      assert there - {x} == there;
    case Txt(x, _) =>
      TextGrows(t, there, x, source);
  }

  lemma {:induction false} Growing(start: Target, run: seq<Outline>, steps: seq<Step>, n: nat, source: Target, i: nat,
      k: nat)
    requires RunOk(run, steps) && i <= k <= n <= |steps| && Plain(source, run[n])
          && forall j :: i <= j < n ==> Leaves(run, steps, n, j)
    requires Carries(Replica(start, run, steps, source, i), There(run, steps, n, i))
    ensures Carries(Replica(start, run, steps, source, k), There(run, steps, n, k))
    ensures Grown(Replica(start, run, steps, source, i), Replica(start, run, steps, source, k))
    decreases k
  {
    hide StepOk, OutlineOk, Carries, Apply, Grown, Leaves, Replica, There;
    if k == i {
      GrownSelf(Replica(start, run, steps, source, i), There(run, steps, n, i));
    } else {
      Growing(start, run, steps, n, source, i, k - 1);
      assert Leaves(run, steps, n, k - 1);
      GrowStep(run, steps, n, k - 1, Replica(start, run, steps, source, k - 1), source);
      ReplicaStep(start, run, steps, source, k);
      GrownOn(Replica(start, run, steps, source, i), Replica(start, run, steps, source, k - 1),
          Replica(start, run, steps, source, k));
    }
  }

  /** Two elements that carry one id never go. */
  lemma TwiceStays(t: Target, t': Target, k: ElementId, l: ElementId)
    requires Twice(t, k, l) && Grown(t, t')
    ensures Twice(t', k, l)
  {
    assert NodeGrown(t, t', k) && NodeGrown(t, t', l);
  }

  lemma CarriedAt(t: Target, there: set<ElementId>, x: ElementId) returns (k: ElementId)
    requires Carries(t, there) && x in there
    ensures k in t.o.kids && k in t.ids && t.ids[k] == x
  {
    assert Carried(t, x);
    k :| k in t.o.kids && k in t.ids && t.ids[k] == x;
  }

  /** An element that comes a second time stays twice. */
  lemma ComesTwice(start: Target, run: seq<Outline>, steps: seq<Step>, n: nat, source: Target, i: nat, k: nat)
      returns (k1: ElementId, k2: ElementId)
    requires RunOk(run, steps) && i <= k < n <= |steps| && Plain(source, run[n])
          && forall j :: i <= j < n ==> Leaves(run, steps, n, j)
    requires Carries(Replica(start, run, steps, source, i), There(run, steps, n, i))
    requires Comes(run, steps, n, k) && steps[k].x in There(run, steps, n, k)
    ensures Twice(Replica(start, run, steps, source, n), k1, k2)
  {
    hide StepOk, OutlineOk, Carries, Grown, Leaves, Replica, Twice, Created, Has, Found, There;
    var t, x, b := Replica(start, run, steps, source, k), steps[k].x, steps[k].base;
    Growing(start, run, steps, n, source, i, k);
    Growing(start, run, steps, n, source, k + 1, n) by {
      GrowStep(run, steps, n, k, t, source);
      ReplicaStep(start, run, steps, source, k + 1);
    }
    CarriesHas(t, There(run, steps, n, k), b);
    PlainHas(source, run[n], x);
    k1 := CarriedAt(t, There(run, steps, n, k), x);
    ReplicaStep(start, run, steps, source, k + 1);
    CreatedTwice(t, steps[k].mode, Found(t, b), x, MadeFrom(source.o.kind[Found(source, x)]),
        NewText(source, Found(source, x)), k1);
    k2 := FirstFree(t.o.kids.Keys, x);
    TwiceStays(Replica(start, run, steps, source, k + 1), Replica(start, run, steps, source, n), k1, k2);
  }

  /** While nothing that is there is removed: if the source is rebuilt in the end, every element that was there with its
      father before the first move has that father in the end, none came twice, and the attached elements are there. */
  lemma MovedIsLost(start: Target, run: seq<Outline>, steps: seq<Step>, n: nat, source: Target, i: nat)
    requires RunOk(run, steps) && i <= n <= |steps| && Plain(start, run[0]) && Plain(source, run[n])
    requires (forall k :: 0 <= k < i ==> Steady(run, steps, n, k))
          && (forall k :: i <= k < n ==> Leaves(run, steps, n, k))
    requires Rebuilt(run[0], run[n], Replica(start, run, steps, source, n))
    ensures forall x, f :: x in There(run, steps, n, i) && f in There(run, steps, n, i) && HasFather(run[i], x, f) ==>
          HasFather(run[n], x, f)
    ensures forall k :: i <= k < n && Comes(run, steps, n, k) ==> steps[k].x !in There(run, steps, n, k)
    ensures AllThere(run, steps, n)
  {
    hide StepOk, OutlineOk, Carries, Grown, Leaves, Replica, Rebuilt, There, HasFather, Steady, Follows, Comes, Twice;
    var there, t, t' := There(run, steps, n, i), Replica(start, run, steps, source, i),
        Replica(start, run, steps, source, n);
    ReplicaMirrors(start, run, steps, n, source, i);
    TargetKeys(run[i], there, t.o);
    PlainCarries(t, t.o);
    Growing(start, run, steps, n, source, i, n);
    RebuiltCarries(run[0], run[n], t', There(run, steps, n, n));
    forall x, f | x in there && f in there && HasFather(run[i], x, f)
      ensures HasFather(run[n], x, f)
    {
      FatherIs(run[i], there, t.o, x, f);
      KeepsFather(run[0], run[n], t, t', x, f);
    }
    forall k | i <= k < n && Comes(run, steps, n, k)
      ensures steps[k].x !in There(run, steps, n, k)
    {
      if steps[k].x in There(run, steps, n, k) {
        var k1, k2 := ComesTwice(start, run, steps, n, source, i, k);
        TwiceIsNotRebuilt(run[0], run[n], t', k1, k2);
      }
    }
  }

  lemma RebuiltCarries(first: Outline, source: Outline, t: Target, there: set<ElementId>)
    requires Carries(t, there) && Rebuilt(first, source, t)
    ensures forall y :: y in there <==> Attached(first, source, y)
  {
    hide Attached, SameElement;
    forall y
      ensures y in there <==> Attached(first, source, y)
    {
      assert y in there <==> Carried(t, y);
    }
  }

  lemma KeepsFather(first: Outline, source: Outline, t: Target, t': Target, x: ElementId, f: ElementId)
    requires Plain(t, t.o) && Grown(t, t') && Rebuilt(first, source, t') && HasFather(t.o, x, f) && x in t.o.kids
    ensures HasFather(source, x, f)
  {
    hide Rebuilt;
    assert NodeGrown(t, t', f) && NodeGrown(t, t', x);
    ListIs(first, source, t', f, x);
  }
}
