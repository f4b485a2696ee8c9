/** Moves while nothing of the replica is removed: all but the order of siblings can be told without replaying. */
module Fathers {
  import opened DomTree
  import opened JournalTheorem
  import opened Moves
  import opened Outlines
  import opened Replay
  import opened Simulation

  // ----- what the inserts tell -----

  predicate Into(mode: Mode) {
    mode.InsertChild? || mode.AppendChild?
  }

  /** The father of an element among what is there, or 0. */
  ghost function FatherIn(o: Outline, there: set<ElementId>, y: ElementId): ElementId {
    if exists f :: f in there && HasFather(o, y, f) then
      var f :| f in there && HasFather(o, y, f);
      f
    else 0
  }

  /** The father that an element has in the replica after step k: the one it had after step i, and for an element that
      comes, the base that it is inserted into, or the father of the base that it is inserted next to. */
  ghost function ToldFather(run: seq<Outline>, steps: seq<Step>, n: nat, i: nat, k: nat, y: ElementId): ElementId
    requires i <= k <= n <= |steps| < |run|
    decreases k
  {
    if k == i then FatherIn(run[i], There(run, steps, n, i), y)
    else if Comes(run, steps, n, k - 1) && steps[k - 1].x == y then
      if Into(steps[k - 1].mode) then steps[k - 1].base else ToldFather(run, steps, n, i, k - 1, steps[k - 1].base)
    else ToldFather(run, steps, n, i, k - 1, y)
  }

  /** No element comes that is there. */
  ghost predicate NoneTwice(run: seq<Outline>, steps: seq<Step>, n: nat, i: nat)
    requires i <= n <= |steps| < |run|
  {
    forall k :: i <= k < n && Comes(run, steps, n, k) ==> steps[k].x !in There(run, steps, n, k)
  }

  /** Among what is there, the fathers in the source are those that the inserts tell. */
  ghost predicate FathersKept(run: seq<Outline>, steps: seq<Step>, n: nat, i: nat)
    requires i <= n <= |steps| < |run|
  {
    forall y, f :: y in There(run, steps, n, n) && f in There(run, steps, n, n) ==>
      (HasFather(run[n], y, f) <==> ToldFather(run, steps, n, i, n, y) == f)
  }

  // ----- rebuilt, but for the order of siblings -----

  ghost predicate Child(t: Target, k: ElementId, z: ElementId)
    requires k in t.o.kids
  {
    exists c :: c in t.o.kids[k] && c in t.ids && t.ids[c] == z
  }

  /** The element at k is what the source's element y is, its children in any order. */
  ghost predicate SameButOrder(t: Target, k: ElementId, source: Outline, y: ElementId) {
    && k in t.o.kids && k in t.o.kind && k in t.o.text && y in source.kids && y in source.kind && y in source.text
    && (forall z :: z in source.kids[y] <==> Child(t, k, z)) && t.o.kind[k] == source.kind[y]
    && (Textual(source.kind[y]) ==> t.o.text[k] == source.text[y])
  }

  /** The target has the attached elements of the source, each once, with the same children, kinds and texts. */
  ghost predicate Assembled(first: Outline, source: Outline, t: Target) {
    && (forall k :: k in t.o.kids ==>
          k in t.ids && Attached(first, source, t.ids[k]) && SameButOrder(t, k, source, t.ids[k]))
    && (forall y :: Attached(first, source, y) ==> Carried(t, y))
    && (forall k, l :: k in t.o.kids && l in t.o.kids && k in t.ids && l in t.ids && t.ids[k] == t.ids[l] ==> k == l)
  }

  ghost predicate Precedes(s: seq<ElementId>, c: ElementId, d: ElementId) {
    exists i, j :: 0 <= i < j < |s| && s[i] == c && s[j] == d
  }

  /** Children come in the order of the source. */
  ghost predicate InOrder(source: Outline, t: Target) {
    forall k :: k in t.o.kids && k in t.ids && t.ids[k] in source.kids ==> ListInOrder(t, k, source.kids[t.ids[k]])
  }

  ghost predicate ListInOrder(t: Target, k: ElementId, kids: seq<ElementId>)
    requires k in t.o.kids
  {
    forall c, d :: Precedes(t.o.kids[k], c, d) && c in t.ids && d in t.ids ==> Precedes(kids, t.ids[c], t.ids[d])
  }

  lemma {:induction false} OneOrder(s: seq<ElementId>, l: seq<ElementId>)
    requires NoDup(s) && NoDup(l) && (forall z :: z in s <==> z in l)
          && (forall c, d :: Precedes(s, c, d) ==> Precedes(l, c, d))
    ensures s == l
  {
    if s == [] {
      if l != [] {
        SomeIn(l);
        assert false;
      }
    } else {
      SameFirst(s, l);
      forall z
        ensures z in s[1..] <==> z in l[1..]
      {
        InTail(s, z);
        InTail(l, z);
      }
      forall c, d | Precedes(s[1..], c, d)
        ensures Precedes(l[1..], c, d)
      {
        PrecedesTail(s, l, c, d);
      }
      OneOrder(s[1..], l[1..]);
      assert s == [s[0]] + s[1..] && l == [l[0]] + l[1..];
    }
  }

  lemma SomeIn(l: seq<ElementId>)
    requires l != []
    ensures exists z :: z in l
  {
    assert l[0] in l;
  }

  lemma InTail(s: seq<ElementId>, z: ElementId)
    requires s != [] && NoDup(s)
    ensures z in s[1..] <==> z in s && z != s[0]
  {
    assert s == [s[0]] + s[1..];
    if z in s[1..] {
      var i :| 0 <= i < |s| - 1 && s[1..][i] == z;
      assert s[i + 1] == z;
    }
  }

  lemma SameFirst(s: seq<ElementId>, l: seq<ElementId>)
    requires s != [] && NoDup(l) && (forall z :: z in s <==> z in l)
          && (forall c, d :: Precedes(s, c, d) ==> Precedes(l, c, d))
    ensures l != [] && l[0] == s[0]
  {
    assert s[0] in l;
    assert l[0] in s;
    var a :| 0 <= a < |s| && s[a] == l[0];
    FirstPrecedes(s, a);
    NoneBefore(l, s[0]);
  }

  lemma FirstPrecedes(s: seq<ElementId>, a: nat)
    requires a < |s|
    ensures a == 0 || Precedes(s, s[0], s[a])
  {
  }

  lemma NoneBefore(l: seq<ElementId>, c: ElementId)
    requires l != [] && NoDup(l)
    ensures !Precedes(l, c, l[0])
  {
  }

  lemma PrecedesTail(s: seq<ElementId>, l: seq<ElementId>, c: ElementId, d: ElementId)
    requires s != [] && l != [] && s[0] == l[0] && NoDup(s) && Precedes(s[1..], c, d)
    requires forall c, d :: Precedes(s, c, d) ==> Precedes(l, c, d)
    ensures Precedes(l[1..], c, d)
  {
    var i, j :| 0 <= i < j < |s| - 1 && s[1..][i] == c && s[1..][j] == d;
    assert s[i + 1] == c && s[j + 1] == d && c != s[0];
    assert Precedes(s, c, d);
    var p, q :| 0 <= p < q < |l| && l[p] == c && l[q] == d;
    assert p > 0 && l[1..][p - 1] == c && l[1..][q - 1] == d;
  }

  lemma ListIsSame(t: Target, k: ElementId, source: Outline, y: ElementId)
    requires SameElement(t, k, source, y)
    ensures SameButOrder(t, k, source, y) && ListInOrder(t, k, source.kids[y])
  {
    var s, kids := t.o.kids[k], source.kids[y];
    forall z
      ensures z in kids <==> Child(t, k, z)
    {
      if z in kids {
        var j :| 0 <= j < |kids| && kids[j] == z;
        assert s[j] in t.o.kids[k] && s[j] in t.ids && t.ids[s[j]] == z;
      }
      if Child(t, k, z) {
        var c :| c in t.o.kids[k] && c in t.ids && t.ids[c] == z;
        var j :| 0 <= j < |s| && s[j] == c;
        assert kids[j] == z;
      }
    }
    forall c, d | Precedes(s, c, d) && c in t.ids && d in t.ids
      ensures Precedes(kids, t.ids[c], t.ids[d])
    {
      var i, j :| 0 <= i < j < |s| && s[i] == c && s[j] == d;
      assert kids[i] == t.ids[c] && kids[j] == t.ids[d];
    }
  }

  lemma OrderIsList(t: Target, k: ElementId, source: Outline)
    requires Plain(t, t.o) && OutlineOk(t.o) && OutlineOk(source) && k in t.ids && SameButOrder(t, k, source, k)
          && ListInOrder(t, k, source.kids[k])
    ensures SameElement(t, k, source, k)
  {
    hide Precedes, NoDup;
    var s, kids := t.o.kids[k], source.kids[k];
    assert NoDup(s) && NoDup(kids);
    forall z
      ensures z in s ==> z in t.ids && t.ids[z] == z
      ensures z in s <==> z in kids
    {
      assert z in s ==> HasFather(t.o, z, k);
      assert z in kids <==> Child(t, k, z);
    }
    forall c, d | Precedes(s, c, d)
      ensures Precedes(kids, c, d)
    {
      PrecedesIn(s, c, d);
    }
    OneOrder(s, kids);
  }

  lemma PrecedesIn(s: seq<ElementId>, c: ElementId, d: ElementId)
    requires Precedes(s, c, d)
    ensures c in s && d in s
  {
  }

  /** Rebuilt is assembled, with siblings in order. */
  lemma RebuiltParts(first: Outline, source: Outline, t: Target)
    ensures Rebuilt(first, source, t) ==> Assembled(first, source, t) && InOrder(source, t)
    ensures Plain(t, t.o) && OutlineOk(t.o) && OutlineOk(source) ==>
              (Assembled(first, source, t) && InOrder(source, t) ==> Rebuilt(first, source, t))
  {
    hide SameElement, SameButOrder, ListInOrder, Attached, Carried, OutlineOk;
    if Rebuilt(first, source, t) {
      forall k | k in t.o.kids
        ensures SameButOrder(t, k, source, t.ids[k])
              && (t.ids[k] in source.kids ==> ListInOrder(t, k, source.kids[t.ids[k]]))
      {
        ListIsSame(t, k, source, t.ids[k]);
      }
    }
    if Assembled(first, source, t) && InOrder(source, t) && Plain(t, t.o) && OutlineOk(t.o) && OutlineOk(source) {
      forall k | k in t.o.kids
        ensures SameElement(t, k, source, t.ids[k])
      {
        assert t.ids[k] == k && SameButOrder(t, k, source, k);
        ButOrderKeys(t, k, source, k);
        assert ListInOrder(t, k, source.kids[t.ids[k]]);
        OrderIsList(t, k, source);
      }
    }
  }

  lemma ButOrderKeys(t: Target, k: ElementId, source: Outline, y: ElementId)
    requires SameButOrder(t, k, source, y)
    ensures y in source.kids
  {
  }

  // ----- an insert, wherever it puts its element -----

  ghost predicate NewFather(o: Outline, mode: Mode, b: ElementId, p: ElementId) {
    if Into(mode) then p == b else HasFather(o, b, p)
  }

  lemma PlaceIsFather(o: Outline, mode: Mode, b: ElementId, f: ElementId, n: nat)
    requires OutlineOk(o) && Place(o, mode, b, f, n)
    ensures forall p :: NewFather(o, mode, b, p) <==> p == f
  {
    if !Into(mode) {
      assert HasFather(o, b, f);
      OneFather(o, b, f);
    }
  }

  lemma FatherIsPlace(o: Outline, mode: Mode, b: ElementId, p: ElementId)
    requires b in o.kids && NewFather(o, mode, b, p)
    ensures HasPlace(o, mode, b)
  {
    if Into(mode) {
      var n: nat := if mode.InsertChild? then 0 else |o.kids[b]|;
      assert Place(o, mode, b, b, n);
    } else {
      var j :| 0 <= j < |o.kids[p]| && o.kids[p][j] == b;
      var n: nat := if mode.InsertBefore? then j else j + 1;
      assert Place(o, mode, b, p, n);
    }
  }

  lemma PutAtPlace(o: Outline, mode: Mode, b: ElementId, x: ElementId) returns (f: ElementId, n: nat)
    requires HasPlace(o, mode, b)
    ensures Place(o, mode, b, f, n) && f in o.kids && n <= |o.kids[f]| && PutAt(o, mode, b, x) == Put(o, f, n, x)
  {
    f, n :| Place(o, mode, b, f, n) && PutAt(o, mode, b, x) == Put(o, f, n, x);
  }

  lemma PutAtKeeps(o: Outline, mode: Mode, b: ElementId, x: ElementId)
    requires OutlineOk(o) && x in o.kids && !IsLinked(o, x) && b in o.kids
    ensures OutlineOk(PutAt(o, mode, b, x))
    ensures forall y, p :: HasFather(PutAt(o, mode, b, x), y, p) <==>
          HasFather(o, y, p) || (y == x && NewFather(o, mode, b, p))
  {
    hide OutlineOk, Place, NewFather, HasFather, IsLinked;
    if HasPlace(o, mode, b) {
      var f, n := PutAtPlace(o, mode, b, x);
      PutOk(o, f, n, x);
      PlaceIsFather(o, mode, b, f, n);
    } else {
      forall p
        ensures !NewFather(o, mode, b, p)
      {
        if NewFather(o, mode, b, p) {
          FatherIsPlace(o, mode, b, p);
        }
      }
    }
  }

  lemma AddedKeeps(o: Outline, x: ElementId, kind: Kind, text: string)
    requires OutlineOk(o) && x !in o.kids && x != 0
    ensures OutlineOk(Added(o, x, kind, text)) && !IsLinked(Added(o, x, kind, text), x) && !IsLinked(o, x)
    ensures forall y, p :: HasFather(Added(o, x, kind, text), y, p) <==> HasFather(o, y, p)
  {
    var o' := Added(o, x, kind, text);
    assert forall y, p :: HasFather(o', y, p) <==> HasFather(o, y, p);
    assert forall p :: !HasFather(o, x, p);
    assert forall p :: p in o'.kids ==> NoDup(o'.kids[p]);
  }

  lemma CreatedFathers(o: Outline, mode: Mode, b: ElementId, x: ElementId, kind: Kind, text: string)
    requires OutlineOk(o) && x !in o.kids && x != 0 && b in o.kids
    ensures var o' := PutAt(Added(o, x, kind, text), mode, b, x);
            && OutlineOk(o') && o'.kids.Keys == o.kids.Keys + {x} && o'.kind == o.kind[x := kind]
            && (forall y, p :: HasFather(o', y, p) <==> HasFather(o, y, p) || (y == x && NewFather(o, mode, b, p)))
  {
    hide OutlineOk, PutAt, HasFather, IsLinked;
    AddedKeeps(o, x, kind, text);
    PutAtKeeps(Added(o, x, kind, text), mode, b, x);
    PutAtDomains(Added(o, x, kind, text), mode, b, x);
  }

  // ----- the replica, told step by step -----

  ghost predicate FathersTold(run: seq<Outline>, steps: seq<Step>, n: nat, i: nat, k: nat, o: Outline)
    requires i <= k <= n <= |steps| < |run|
  {
    forall y, f :: HasFather(o, y, f) <==>
        y in There(run, steps, n, k) && f != 0 && ToldFather(run, steps, n, i, k, y) == f
  }

  ghost predicate ContentsFollow(run: seq<Outline>, steps: seq<Step>, n: nat, k: nat, o: Outline)
    requires k <= n <= |steps| < |run|
  {
    forall y :: y in o.kids ==> ContentFollows(run[0], Journal(run, steps[..k]), run[n], o, y)
  }

  ghost predicate Tells(run: seq<Outline>, steps: seq<Step>, n: nat, i: nat, k: nat, o: Outline)
    requires i <= k <= n <= |steps| < |run|
  {
    && OutlineOk(o) && o.kids.Keys == There(run, steps, n, k)
    && FathersTold(run, steps, n, i, k, o) && ContentsFollow(run, steps, n, k, o)
  }

  lemma FollowsOk(o: Outline, there: set<ElementId>, t: Outline)
    requires OutlineOk(o) && Follows(o, there, t)
    ensures OutlineOk(t)
  {
    hide Follows, HasFather, NoDup;
    TargetKeys(o, there, t);
    forall p | p in t.kids
      ensures NoDup(t.kids[p])
    {
      FollowsNode(o, there, t, p);
      FilterNoDup(o.kids[p], there);
    }
    forall y, p
      ensures HasFather(t, y, p) <==> p in there && y in there && HasFather(o, y, p)
    {
      FatherIs(o, there, t, y, p);
    }
  }

  lemma FatherInIs(o: Outline, there: set<ElementId>, y: ElementId, f: ElementId)
    requires OutlineOk(o) && there <= o.kids.Keys
    ensures f in there && HasFather(o, y, f) <==> f != 0 && FatherIn(o, there, y) == f
  {
    hide HasFather;
    if f in there && HasFather(o, y, f) {
      OneFather(o, y, f);
    }
  }

  lemma FirstTells(run: seq<Outline>, steps: seq<Step>, n: nat, i: nat, o: Outline)
    requires RunOk(run, steps) && i <= n <= |steps| && Mirrors(run, steps, n, i, o)
    ensures Tells(run, steps, n, i, i, o)
  {
    hide OutlineOk, StepOk, Follows, ContentFollows, There, HasFather, FatherIn, Journal;
    var there := There(run, steps, n, i);
    RunKeeps(run, steps, i);
    FollowsOk(run[i], there, o);
    TargetKeys(run[i], there, o);
    forall y, f
      ensures HasFather(o, y, f) <==> y in there && f != 0 && ToldFather(run, steps, n, i, i, y) == f
    {
      FatherIs(run[i], there, o, y, f);
      FatherInIs(run[i], there, y, f);
    }
  }

  /** An element that comes, and comes once, is new. */
  lemma ComesFresh(run: seq<Outline>, steps: seq<Step>, n: nat, k: nat)
    requires RunOk(run, steps) && k < n <= |steps| && Comes(run, steps, n, k) && steps[k].x !in There(run, steps, n, k)
    ensures var x := steps[k].x;
            x !in run[0].kids && x != 0 && x in run[n].kind && x in run[n].text
  {
    hide OutlineOk, PutInto, IsLinked, HasFather;
    var x := steps[k].x;
    StepAt(run, steps, k);
    var f, j := InsIs(run[k], steps[k], run[k + 1]);
    if x in run[0].kids {
      FirstThere(run, steps, n, k, x);
    }
    RunKeeps(run, steps, n);
    OutlineKinds(run[n]);
  }

  lemma ComeTells(run: seq<Outline>, steps: seq<Step>, n: nat, i: nat, k: nat, o: Outline)
    requires RunOk(run, steps) && i <= k < n <= |steps| && Comes(run, steps, n, k)
          && steps[k].x !in There(run, steps, n, k)
    requires OutlineOk(o) && o.kids.Keys == There(run, steps, n, k) && FathersTold(run, steps, n, i, k, o)
    ensures var o' := Applied(o, InsertItem(steps[k].mode, steps[k].base, steps[k].x), run[n]);
            OutlineOk(o') && o'.kids.Keys == There(run, steps, n, k + 1) && FathersTold(run, steps, n, i, k + 1, o')
  {
    hide OutlineOk, StepOk, PutAt, HasFather, FatherIn;
    var x, b, mode := steps[k].x, steps[k].base, steps[k].mode;
    ComesFresh(run, steps, n, k);
    OutlineKinds(o);
    CreatedFathers(o, mode, b, x, MadeFrom(run[n].kind[x]), if run[n].kind[x].Text? then run[n].text[x] else "");
    AddedKeeps(o, x, Kind.Regular, "");
    Fatherless(o, x);
    var o' := Applied(o, InsertItem(mode, b, x), run[n]);
    forall y, f
      ensures HasFather(o', y, f) <==>
            y in There(run, steps, n, k + 1) && f != 0 && ToldFather(run, steps, n, i, k + 1, y) == f
    {
      assert HasFather(o, y, f) <==> y in There(run, steps, n, k) && f != 0 && ToldFather(run, steps, n, i, k, y) == f;
      assert HasFather(o, b, f) <==> b in There(run, steps, n, k) && f != 0 && ToldFather(run, steps, n, i, k, b) == f;
    }
  }

  /** Other items change texts at most. */
  lemma OtherTells(run: seq<Outline>, steps: seq<Step>, n: nat, i: nat, k: nat, o: Outline)
    requires RunOk(run, steps) && i <= k < n <= |steps| && !Comes(run, steps, n, k) && Leaves(run, steps, n, k)
    requires OutlineOk(o) && o.kids.Keys == There(run, steps, n, k) && FathersTold(run, steps, n, i, k, o)
    ensures var o' := AppliedAll(o, EntryOf(run[k], steps[k]), run[n]);
            OutlineOk(o') && o'.kids.Keys == There(run, steps, n, k + 1) && FathersTold(run, steps, n, i, k + 1, o')
  {
    hide OutlineOk, StepOk, PutAt, Cut, FatherIn, IsLinked;
    var o' := AppliedAll(o, EntryOf(run[k], steps[k]), run[n]);
    OutlineKinds(o);
    assert o'.kids == o.kids && o'.kind == o.kind && o'.text.Keys == o.text.Keys;
    TextsApart(o, o');
    assert There(run, steps, n, k + 1) == There(run, steps, n, k);
  }

  lemma TextsApart(o: Outline, o': Outline)
    requires OutlineOk(o) && o'.kids == o.kids && o'.kind == o.kind && o'.text.Keys == o.text.Keys
    ensures OutlineOk(o') && forall y, p :: HasFather(o', y, p) <==> HasFather(o, y, p)
  {
    hide NoDup;
    assert forall y, p :: HasFather(o', y, p) <==> HasFather(o, y, p);
  }

  lemma ContentTells(run: seq<Outline>, steps: seq<Step>, n: nat, k: nat, o: Outline, y: ElementId)
    requires RunOk(run, steps) && k < n <= |steps| && OutlineOk(o) && o.kids.Keys == There(run, steps, n, k)
    requires Comes(run, steps, n, k) ==> steps[k].x !in There(run, steps, n, k)
    requires ContentsFollow(run, steps, n, k, o)
    ensures ContentFollows(run[0], Journal(run, steps[..k + 1]), run[n],
          AppliedAll(o, EntryOf(run[k], steps[k]), run[n]), y)
  {
    hide StepOk, OutlineOk, There, Applied, Journal, ContentFollows, IsLinked;
    var told, e := Journal(run, steps[..k]), EntryOf(run[k], steps[k]);
    OutlineKinds(o);
    JournalStep(run, steps, k + 1);
    assert y in o.kids ==> ContentFollows(run[0], told, run[n], o, y);
    if e == [] {
      assert told + e == told;
      ContentOutside(run[0], told, run[n], o, y);
    } else {
      if Comes(run, steps, n, k) {
        ComesFresh(run, steps, n, k);
      }
      ContentStep(run[0], told, e[0], run[n], o, y);
    }
  }

  lemma TellsMore(run: seq<Outline>, steps: seq<Step>, n: nat, i: nat, k: nat, o: Outline)
    requires RunOk(run, steps) && i <= k < n <= |steps| && Tells(run, steps, n, i, k, o) && Leaves(run, steps, n, k)
    requires Comes(run, steps, n, k) ==> steps[k].x !in There(run, steps, n, k)
    ensures Tells(run, steps, n, i, k + 1, AppliedAll(o, EntryOf(run[k], steps[k]), run[n]))
  {
    hide StepOk, OutlineOk, There, Applied, Journal, ContentFollows, IsLinked, FathersTold, Leaves;
    var o' := AppliedAll(o, EntryOf(run[k], steps[k]), run[n]);
    if Comes(run, steps, n, k) {
      ComeTells(run, steps, n, i, k, o);
    } else {
      OtherTells(run, steps, n, i, k, o);
    }
    forall y | y in o'.kids
      ensures ContentFollows(run[0], Journal(run, steps[..k + 1]), run[n], o', y)
    {
      ContentTells(run, steps, n, k, o, y);
    }
  }

  lemma {:induction false} ReplicaTells(start: Target, run: seq<Outline>, steps: seq<Step>, n: nat, source: Target,
      i: nat, k: nat)
    requires RunOk(run, steps) && i <= k <= n <= |steps| && Plain(start, run[0]) && Plain(source, run[n])
    requires (forall j :: 0 <= j < i ==> Steady(run, steps, n, j))
          && (forall j :: i <= j < n ==> Leaves(run, steps, n, j))
    requires forall j :: i <= j < k && Comes(run, steps, n, j) ==> steps[j].x !in There(run, steps, n, j)
    ensures var t := Replica(start, run, steps, source, k); Plain(t, t.o) && Tells(run, steps, n, i, k, t.o)
    decreases k
  {
    hide StepOk, OutlineOk, Steady, There, Comes, Plain, Apply, Applied, Mirrors, Tells, Leaves;
    if k == i {
      ReplicaMirrors(start, run, steps, n, source, i);
      FirstTells(run, steps, n, i, Replica(start, run, steps, source, i).o);
    } else {
      ReplicaTells(start, run, steps, n, source, i, k - 1);
      assert Leaves(run, steps, n, k - 1);
      TellsMore(run, steps, n, i, k - 1, Replica(start, run, steps, source, k - 1).o);
      ReplicaStep(start, run, steps, source, k);
      StepPlain(run, steps, n, i, k - 1, Replica(start, run, steps, source, k - 1), source);
    }
  }

  lemma StepPlain(run: seq<Outline>, steps: seq<Step>, n: nat, i: nat, k: nat, t: Target, source: Target)
    requires RunOk(run, steps) && i <= k < n <= |steps| && Plain(t, t.o) && Plain(source, run[n])
          && Tells(run, steps, n, i, k, t.o)
    requires Comes(run, steps, n, k) ==> steps[k].x !in There(run, steps, n, k)
    ensures var e := EntryOf(run[k], steps[k]);
            var t' := if e == [] then t else Apply(t, e[0], source);
            Plain(t', t'.o) && t'.o == AppliedAll(t.o, e, run[n])
  {
    hide StepOk, OutlineOk, There, Plain, Apply, Applied, FathersTold, ContentsFollow, IsLinked;
    var e := EntryOf(run[k], steps[k]);
    if e != [] {
      PlainApply(t, t.o, e[0], source, run[n]);
      PlainIs(Apply(t, e[0], source), Applied(t.o, e[0], run[n]));
    }
  }

  // ----- what is assembled -----

  lemma SameFathers(run: seq<Outline>, steps: seq<Step>, n: nat, i: nat, o: Outline, k: ElementId, z: ElementId)
    requires RunOk(run, steps) && i <= n <= |steps| && Tells(run, steps, n, i, n, o) && k in o.kids
    requires AllThere(run, steps, n) && FathersKept(run, steps, n, i)
    ensures HasFather(run[n], z, k) <==> HasFather(o, z, k)
  {
    hide StepOk, There, ToldFather, ContentsFollow;
    RunKeeps(run, steps, n);
    assert HasFather(o, z, k) <==> z in There(run, steps, n, n) && k != 0 && ToldFather(run, steps, n, i, n, z) == k;
    if HasFather(run[n], z, k) {
      assert Attached(run[0], run[n], z);
    }
  }

  lemma AssembledNode(run: seq<Outline>, steps: seq<Step>, n: nat, i: nat, t: Target, k: ElementId)
    requires RunOk(run, steps) && i <= n <= |steps| && Plain(t, t.o) && Tells(run, steps, n, i, n, t.o) && k in t.o.kids
    requires AllThere(run, steps, n) && FathersKept(run, steps, n, i) && TextsTold(run, steps, n)
          && KindsTold(run, steps, n)
    ensures Attached(run[0], run[n], k) && SameButOrder(t, k, run[n], k)
  {
    hide StepOk, There, OutlineOk, FathersTold, FathersKept, AllThere, Child, TextsTold, KindsTold, Attached,
      ContentFollows, Journal;
    var o := run[n];
    assert k in There(run, steps, n, n);
    AllKids(run, steps, n, k);
    KindKnown(t.o, k);
    RunKeeps(run, steps, n);
    KindKnown(o, k);
    forall z
      ensures z in o.kids[k] <==> Child(t, k, z)
    {
      SameFathers(run, steps, n, i, t.o, k, z);
      ChildIs(t, k, z);
    }
    assert ContentFollows(run[0], Journal(run, steps[..n]), o, t.o, k);
    SameContent(run, steps, n, t.o, k);
  }

  lemma ChildIs(t: Target, k: ElementId, z: ElementId)
    requires Plain(t, t.o) && OutlineOk(t.o) && k in t.o.kids
    ensures Child(t, k, z) <==> HasFather(t.o, z, k)
  {
    if HasFather(t.o, z, k) {
      assert z in t.o.kids[k] && z in t.ids && t.ids[z] == z;
    }
  }

  lemma ToldIsAssembled(run: seq<Outline>, steps: seq<Step>, n: nat, i: nat, t: Target)
    requires RunOk(run, steps) && i <= n <= |steps| && Plain(t, t.o) && Tells(run, steps, n, i, n, t.o)
    requires AllThere(run, steps, n) && FathersKept(run, steps, n, i) && TextsTold(run, steps, n)
          && KindsTold(run, steps, n)
    ensures Assembled(run[0], run[n], t)
  {
    hide StepOk, OutlineOk, FathersTold, ContentsFollow, FathersKept, TextsTold, KindsTold, SameButOrder, Attached;
    forall k | k in t.o.kids
      ensures k in t.ids && t.ids[k] == k && Attached(run[0], run[n], k) && SameButOrder(t, k, run[n], k)
    {
      AssembledNode(run, steps, n, i, t, k);
    }
    forall y | Attached(run[0], run[n], y)
      ensures Carried(t, y)
    {
      assert y in There(run, steps, n, n);
      assert y in t.o.kids && t.ids[y] == y;
    }
  }

  lemma AssembledIsThere(run: seq<Outline>, steps: seq<Step>, n: nat, i: nat, t: Target)
    requires RunOk(run, steps) && i <= n <= |steps| && Plain(t, t.o) && Tells(run, steps, n, i, n, t.o)
          && Assembled(run[0], run[n], t)
    ensures AllThere(run, steps, n)
  {
    hide StepOk, OutlineOk, FathersTold, ContentsFollow, SameButOrder, Attached, There;
    forall y
      ensures y in There(run, steps, n, n) <==> Attached(run[0], run[n], y)
    {
      if Attached(run[0], run[n], y) {
        assert Carried(t, y);
      }
    }
  }

  lemma AssembledTexts(run: seq<Outline>, steps: seq<Step>, n: nat, i: nat, t: Target, y: ElementId)
    requires RunOk(run, steps) && i <= n <= |steps| && Plain(t, t.o) && Tells(run, steps, n, i, n, t.o)
          && Assembled(run[0], run[n], t)
    requires y in run[0].kids && y in run[n].kids
    ensures TextTold(run, steps, n, y)
  {
    hide StepOk, OutlineOk, FathersTold, There, Attached, Child, Journal;
    FirstThere(run, steps, n, n, y);
    assert y in t.o.kids && t.ids[y] == y;
    assert SameButOrder(t, y, run[n], y);
    assert ContentFollows(run[0], Journal(run, steps[..n]), run[n], t.o, y);
  }

  lemma AssembledKinds(run: seq<Outline>, steps: seq<Step>, n: nat, i: nat, t: Target, y: ElementId)
    requires RunOk(run, steps) && i <= n <= |steps| && Plain(t, t.o) && Tells(run, steps, n, i, n, t.o)
          && Assembled(run[0], run[n], t)
    requires y in There(run, steps, n, n) && y !in run[0].kids && y in run[n].kind
    ensures MadeFrom(run[n].kind[y]) == run[n].kind[y]
  {
    hide StepOk, OutlineOk, FathersTold, There, Attached, Child, Journal;
    assert y in t.o.kids && t.ids[y] == y;
    assert SameButOrder(t, y, run[n], y);
    assert ContentFollows(run[0], Journal(run, steps[..n]), run[n], t.o, y);
  }

  lemma AssembledFathers(run: seq<Outline>, steps: seq<Step>, n: nat, i: nat, t: Target, y: ElementId, f: ElementId)
    requires RunOk(run, steps) && i <= n <= |steps| && Plain(t, t.o) && Tells(run, steps, n, i, n, t.o)
          && Assembled(run[0], run[n], t)
    requires y in There(run, steps, n, n) && f in There(run, steps, n, n)
    ensures HasFather(run[n], y, f) <==> ToldFather(run, steps, n, i, n, y) == f
  {
    hide StepOk, There, Attached, Child, Journal, ContentsFollow, ToldFather, OutlineOk, ContentFollows;
    OutlineKinds(t.o);
    assert f in t.o.kids && t.ids[f] == f;
    assert SameButOrder(t, f, run[n], f);
    ChildIs(t, f, y);
    assert y in run[n].kids[f] <==> Child(t, f, y);
    assert HasFather(t.o, y, f) <==> y in There(run, steps, n, n) && f != 0 && ToldFather(run, steps, n, i, n, y) == f;
  }

  lemma AssembledIsTold(run: seq<Outline>, steps: seq<Step>, n: nat, i: nat, t: Target)
    requires RunOk(run, steps) && i <= n <= |steps| && Plain(t, t.o) && Tells(run, steps, n, i, n, t.o)
          && Assembled(run[0], run[n], t)
    ensures AllThere(run, steps, n) && FathersKept(run, steps, n, i) && TextsTold(run, steps, n)
          && KindsTold(run, steps, n)
  {
    hide StepOk, OutlineOk, Tells, Assembled, There, ToldFather, HasFather, TextTold, Plain;
    forall y | y in There(run, steps, n, n) && y !in run[0].kids && y in run[n].kind
      ensures MadeFrom(run[n].kind[y]) == run[n].kind[y]
    {
      AssembledKinds(run, steps, n, i, t, y);
    }
    AssembledIsThere(run, steps, n, i, t);
    forall y | y in run[0].kids && y in run[n].kids
      ensures TextTold(run, steps, n, y)
    {
      AssembledTexts(run, steps, n, i, t, y);
    }
    forall y, f | y in There(run, steps, n, n) && f in There(run, steps, n, n)
      ensures HasFather(run[n], y, f) <==> ToldFather(run, steps, n, i, n, y) == f
    {
      AssembledFathers(run, steps, n, i, t, y, f);
    }
  }

  lemma TwiceIsNotAssembled(first: Outline, source: Outline, t: Target, k: ElementId, l: ElementId)
    requires Twice(t, k, l)
    ensures !Assembled(first, source, t)
  {
    hide SameButOrder, Attached, Carried;
  }

  lemma AssembledOnce(start: Target, run: seq<Outline>, steps: seq<Step>, n: nat, source: Target, i: nat)
    requires RunOk(run, steps) && i <= n <= |steps| && Plain(start, run[0]) && Plain(source, run[n])
    requires (forall k :: 0 <= k < i ==> Steady(run, steps, n, k))
          && (forall k :: i <= k < n ==> Leaves(run, steps, n, k))
    requires Assembled(run[0], run[n], Replica(start, run, steps, source, n))
    ensures NoneTwice(run, steps, n, i)
  {
    hide StepOk, OutlineOk, Steady, There, Comes, Leaves, Carries, Assembled, Replica, Follows, Twice;
    ReplicaMirrors(start, run, steps, n, source, i);
    TargetKeys(run[i], There(run, steps, n, i), Replica(start, run, steps, source, i).o);
    PlainCarries(Replica(start, run, steps, source, i), Replica(start, run, steps, source, i).o);
    forall k | i <= k < n && Comes(run, steps, n, k)
      ensures steps[k].x !in There(run, steps, n, k)
    {
      if steps[k].x in There(run, steps, n, k) {
        var k1, k2 := ComesTwice(start, run, steps, n, source, i, k);
        TwiceIsNotAssembled(run[0], run[n], Replica(start, run, steps, source, n), k1, k2);
      }
    }
  }

  /** A run that moves nothing before step i, and from there on removes nothing that is there. The source is rebuilt but
      for the order of siblings if and only if no element comes twice, the attached elements are there, texts and kinds
      are told, and the fathers are those that the inserts tell; it is rebuilt if and only if siblings are in order too.
      */
  lemma AssembledExactly(start: Target, run: seq<Outline>, steps: seq<Step>, n: nat, source: Target, i: nat)
    requires RunOk(run, steps) && i <= n <= |steps| && Plain(start, run[0]) && Plain(source, run[n])
    requires (forall k :: 0 <= k < i ==> Steady(run, steps, n, k))
          && (forall k :: i <= k < n ==> Leaves(run, steps, n, k))
    ensures var t := Replica(start, run, steps, source, n);
            && (Rebuilt(run[0], run[n], t) <==> Assembled(run[0], run[n], t) && InOrder(run[n], t))
            && (Assembled(run[0], run[n], t) <==>
                  && NoneTwice(run, steps, n, i) && AllThere(run, steps, n) && TextsTold(run, steps, n)
                  && KindsTold(run, steps, n)
                  && FathersKept(run, steps, n, i))
  {
    hide StepOk, OutlineOk, Steady, Leaves, Plain, Rebuilt, Assembled, InOrder, AllThere, TextsTold, KindsTold,
      FathersKept, Replica;
    var t := Replica(start, run, steps, source, n);
    if Assembled(run[0], run[n], t) {
      AssembledOnce(start, run, steps, n, source, i);
    }
    RebuiltParts(run[0], run[n], t);
    if NoneTwice(run, steps, n, i) {
      ReplicaTells(start, run, steps, n, source, i, n);
      TellsOk(run, steps, n, i, t.o);
      RunKeeps(run, steps, n);
      if Assembled(run[0], run[n], t) {
        AssembledIsTold(run, steps, n, i, t);
      }
      if AllThere(run, steps, n) && TextsTold(run, steps, n) && KindsTold(run, steps, n)
          && FathersKept(run, steps, n, i) {
        ToldIsAssembled(run, steps, n, i, t);
      }
    }
  }

  lemma TellsOk(run: seq<Outline>, steps: seq<Step>, n: nat, i: nat, o: Outline)
    requires i <= n <= |steps| < |run| && Tells(run, steps, n, i, n, o)
    ensures OutlineOk(o)
  {
  }
}
