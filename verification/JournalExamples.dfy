/** Concrete runs: what a replay loses, and a move that comes right. */
module JournalExamples {
  import opened Applying
  import opened DomTree
  import opened JournalTheorem
  import opened Moves
  import opened Outlines
  import opened Replay
  import opened ReplayApplies

  /** Regular elements with these child lists. */
  function Regulars(kids: Kids): Outline {
    Outline(kids, map k | k in kids :: Kind.Regular, map k | k in kids :: "")
  }

  /** The run's journal, replayed on any copy of the fork, does not rebuild what the source has become. */
  ghost predicate Loses(run: seq<Outline>, steps: seq<Step>)
    requires |run| == |steps| + 1
  {
    forall start, source :: Plain(start, run[0]) && Plain(source, run[|steps|]) ==>
      !Rebuilt(run[0], run[|steps|], Replayed(start, Journal(run, steps), source))
  }

  /** An element of the source is not there, although nothing that was there is removed; or it came twice. */
  lemma LosesAt(run: seq<Outline>, steps: seq<Step>, x: ElementId)
    requires RunOk(run, steps) && forall k :: 0 <= k < |steps| ==> Leaves(run, steps, |steps|, k)
    requires (Attached(run[0], run[|steps|], x) && x !in There(run, steps, |steps|, |steps|))
          || exists k :: 0 <= k < |steps| && Comes(run, steps, |steps|, k)
                && steps[k].x in There(run, steps, |steps|, k)
    ensures Loses(run, steps)
  {
    hide Rebuilt, Plain, Replayed, StepOk, OutlineOk, There, Attached, Leaves;
    assert steps[..|steps|] == steps;
    forall start, source | Plain(start, run[0]) && Plain(source, run[|steps|])
      ensures !Rebuilt(run[0], run[|steps|], Replayed(start, Journal(run, steps), source))
    {
      if Rebuilt(run[0], run[|steps|], Replayed(start, Journal(run, steps), source)) {
        MovedIsLost(start, run, steps, |steps|, source, 0);
      }
    }
  }

  // ----- steps between such documents -----

  lemma NewStep(kids: Kids, x: ElementId, kids': Kids)
    requires x !in kids && x != 0 && kids' == kids[x := []]
    ensures StepOk(Regulars(kids), New(x, Kind.Regular, ""), Regulars(kids'))
  {
    assert Regulars(kids') == Added(Regulars(kids), x, Kind.Regular, "");
  }

  ghost predicate PlaceIn(kids: Kids, mode: Mode, b: ElementId, f: ElementId, n: nat) {
    && f in kids && b in kids && n <= |kids[f]|
    && match mode
       case InsertChild => f == b && n == 0
       case AppendChild => f == b && n == |kids[f]|
       case InsertBefore => n < |kids[f]| && kids[f][n] == b
       case InsertAfter => n > 0 && kids[f][n - 1] == b
  }

  lemma InsStep(kids: Kids, mode: Mode, b: ElementId, x: ElementId, f: ElementId, n: nat, kids': Kids)
    requires x in kids && b != x && f != x && PlaceIn(kids, mode, b, f, n) && forall p :: p in kids ==> x !in kids[p]
    requires kids' == kids[f := InsertAt(kids[f], n, x)]
    ensures StepOk(Regulars(kids), Ins(mode, b, x), Regulars(kids'))
  {
    var o, o' := Regulars(kids), Regulars(kids');
    assert o' == Put(o, f, n, x);
    assert PutInto(o, mode, b, x, f, n, o');
  }

  lemma RemStep(kids: Kids, f: ElementId, n: nat, x: ElementId, kids': Kids)
    requires f in kids && n < |kids[f]| && kids[f][n] == x && f != x && x in kids && kids[x] == []
    requires kids' == kids[f := RemoveAt(kids[f], n)] - {x}
    ensures StepOk(Regulars(kids), Rem(x), Regulars(kids'))
  {
    var o, o' := Regulars(kids), Regulars(kids');
    assert o' == Dropped(o, f, n, x);
    assert DroppedFrom(o, x, f, n, o');
  }

  lemma UnlinkStep(kids: Kids, f: ElementId, n: nat, x: ElementId, kids': Kids)
    requires f in kids && n < |kids[f]| && kids[f][n] == x && kids' == kids[f := RemoveAt(kids[f], n)]
    ensures StepOk(Regulars(kids), Unlink(x), Regulars(kids'))
  {
    var o, o' := Regulars(kids), Regulars(kids');
    assert UnlinkedFrom(o, x, f, n, o');
  }

  /** The child lists of a document in which an element is a child of one other at most. */
  ghost predicate KidsOk(kids: Kids) {
    && 0 !in kids && (forall p :: p in kids ==> NoDup(kids[p]))
    && (forall p, y :: p in kids && y in kids[p] ==> y in kids)
    && (forall p, q, y :: p in kids && q in kids && y in kids[p] && y in kids[q] ==> p == q)
  }

  lemma RegularsOk(kids: Kids)
    requires KidsOk(kids)
    ensures OutlineOk(Regulars(kids))
  {
  }

  lemma LinkedIn(kids: Kids, y: ElementId, f: ElementId)
    requires f in kids && y in kids[f]
    ensures IsLinked(Regulars(kids), y)
  {
    assert HasFather(Regulars(kids), y, f);
  }

  // ----- an element next to one that is removed later -----

  const ROOT_ONLY: Kids := map[1 := []]

  const SIBLING_STEPS :=
      [New(2, Kind.Regular, ""), Ins(AppendChild, 1, 2), New(3, Kind.Regular, ""), Ins(InsertAfter, 2, 3), Rem(2)]

  const SIBLING_KIDS: seq<Kids> :=
      [ROOT_ONLY, map[1 := [], 2 := []], map[1 := [2], 2 := []], map[1 := [2], 2 := [], 3 := []],
                                    map[1 := [2, 3], 2 := [], 3 := []], map[1 := [3], 3 := []]]

  ghost function RunOf(kids: seq<Kids>): seq<Outline> {
    seq(|kids|, i requires 0 <= i < |kids| => Regulars(kids[i]))
  }

  lemma FirstSibling()
    ensures StepOk(Regulars(SIBLING_KIDS[0]), SIBLING_STEPS[0], Regulars(SIBLING_KIDS[1]))
    ensures StepOk(Regulars(SIBLING_KIDS[1]), SIBLING_STEPS[1], Regulars(SIBLING_KIDS[2]))
  {
    hide StepOk, Regulars;
    var k := SIBLING_KIDS;
    NewStep(k[0], 2, k[1]);
    assert InsertAt(k[1][1], 0, 2) == [2];
    InsStep(k[1], AppendChild, 1, 2, 1, 0, k[2]);
  }

  lemma SecondSibling()
    ensures StepOk(Regulars(SIBLING_KIDS[2]), SIBLING_STEPS[2], Regulars(SIBLING_KIDS[3]))
    ensures StepOk(Regulars(SIBLING_KIDS[3]), SIBLING_STEPS[3], Regulars(SIBLING_KIDS[4]))
  {
    hide StepOk, Regulars;
    var k := SIBLING_KIDS;
    NewStep(k[2], 3, k[3]);
    assert InsertAt(k[3][1], 1, 3) == [2, 3];
    InsStep(k[3], InsertAfter, 2, 3, 1, 1, k[4]);
  }

  lemma SiblingGoes()
    ensures StepOk(Regulars(SIBLING_KIDS[4]), SIBLING_STEPS[4], Regulars(SIBLING_KIDS[5]))
  {
    hide StepOk, Regulars;
    var k := SIBLING_KIDS;
    assert RemoveAt(k[4][1], 0) == [3];
    RemStep(k[4], 1, 0, 2, k[5]);
  }

  lemma SiblingSteps()
    ensures RunOk(RunOf(SIBLING_KIDS), SIBLING_STEPS)
  {
    hide StepOk, Regulars;
    FirstSibling();
    SecondSibling();
    SiblingGoes();
    assert KidsOk(ROOT_ONLY);
    RegularsOk(ROOT_ONLY);
    KeysOf(SIBLING_KIDS);
  }

  lemma KeysOf(kids: seq<Kids>)
    ensures |RunOf(kids)| == |kids|
          && forall i :: 0 <= i < |kids| ==> RunOf(kids)[i].kids == kids[i] && RunOf(kids)[i] == Regulars(kids[i])
  {
  }

  lemma ThereNext(kids: seq<Kids>, steps: seq<Step>, i: nat)
    requires |kids| == |steps| + 1 && i < |steps|
    ensures var (run, n) := (RunOf(kids), |steps|);
            There(run, steps, n, i + 1) == (if Comes(run, steps, n, i) then There(run, steps, n, i) + {steps[i].x}
                                            else if steps[i].Rem? then There(run, steps, n, i) - {steps[i].x}
                                                else There(run, steps, n, i))
            && (Comes(run, steps, n, i) <==>
                  steps[i].Ins? && steps[i].base in There(run, steps, n, i) && steps[i].x in kids[n])
  {
  }

  /** An element inserted after one that is removed later is lost: append 2, insert 3 after 2, remove 2. */
  lemma SiblingOfRemoved()
    ensures RunOk(RunOf(SIBLING_KIDS), SIBLING_STEPS) && Loses(RunOf(SIBLING_KIDS), SIBLING_STEPS)
  {
    hide RunOk, Loses, Regulars, There, Comes;
    var run, steps := RunOf(SIBLING_KIDS), SIBLING_STEPS;
    SiblingSteps();
    KeysOf(SIBLING_KIDS);
    ThereAtFork(run, steps);
    ThereNext(SIBLING_KIDS, steps, 0);
    ThereNext(SIBLING_KIDS, steps, 1);
    ThereNext(SIBLING_KIDS, steps, 2);
    ThereNext(SIBLING_KIDS, steps, 3);
    ThereNext(SIBLING_KIDS, steps, 4);
    LinkedIn(SIBLING_KIDS[5], 3, 1);
    LosesAt(run, steps, 3);
  }

  lemma ThereAtFork(run: seq<Outline>, steps: seq<Step>)
    requires |steps| < |run|
    ensures There(run, steps, |steps|, 0) == run[0].kids.Keys
  {
  }

  // ----- an element inside one that is not in the tree yet -----

  const DETACHED_STEPS :=
      [New(2, Kind.Regular, ""), New(3, Kind.Regular, ""), Ins(AppendChild, 2, 3), Ins(AppendChild, 1, 2)]

  const DETACHED_KIDS: seq<Kids> :=
      [ROOT_ONLY, map[1 := [], 2 := []], map[1 := [], 2 := [], 3 := []], map[1 := [], 2 := [3], 3 := []],
                                     map[1 := [2], 2 := [3], 3 := []]]

  lemma TwoDetached()
    ensures StepOk(Regulars(DETACHED_KIDS[0]), DETACHED_STEPS[0], Regulars(DETACHED_KIDS[1]))
    ensures StepOk(Regulars(DETACHED_KIDS[1]), DETACHED_STEPS[1], Regulars(DETACHED_KIDS[2]))
  {
    hide StepOk, Regulars;
    var k := DETACHED_KIDS;
    NewStep(k[0], 2, k[1]);
    NewStep(k[1], 3, k[2]);
  }

  lemma TwoAppended()
    ensures StepOk(Regulars(DETACHED_KIDS[2]), DETACHED_STEPS[2], Regulars(DETACHED_KIDS[3]))
    ensures StepOk(Regulars(DETACHED_KIDS[3]), DETACHED_STEPS[3], Regulars(DETACHED_KIDS[4]))
  {
    hide StepOk, Regulars;
    var k := DETACHED_KIDS;
    assert InsertAt(k[2][2], 0, 3) == [3] && InsertAt(k[3][1], 0, 2) == [2];
    InsStep(k[2], AppendChild, 2, 3, 2, 0, k[3]);
    InsStep(k[3], AppendChild, 1, 2, 1, 0, k[4]);
  }

  lemma DetachedSteps()
    ensures RunOk(RunOf(DETACHED_KIDS), DETACHED_STEPS)
  {
    hide StepOk, Regulars;
    TwoDetached();
    TwoAppended();
    assert KidsOk(ROOT_ONLY);
    RegularsOk(ROOT_ONLY);
    KeysOf(DETACHED_KIDS);
  }

  /** Nothing is removed, and still an element is lost: 3 goes into 2 before 2 is in the tree. */
  lemma ChildOfDetached()
    ensures RunOk(RunOf(DETACHED_KIDS), DETACHED_STEPS) && Loses(RunOf(DETACHED_KIDS), DETACHED_STEPS)
    ensures forall i :: 0 <= i < |DETACHED_STEPS| ==> !DETACHED_STEPS[i].Rem?
  {
    hide RunOk, Loses, Regulars, There, Comes;
    var run, steps := RunOf(DETACHED_KIDS), DETACHED_STEPS;
    DetachedSteps();
    KeysOf(DETACHED_KIDS);
    ThereAtFork(run, steps);
    ThereNext(DETACHED_KIDS, steps, 0);
    ThereNext(DETACHED_KIDS, steps, 1);
    ThereNext(DETACHED_KIDS, steps, 2);
    ThereNext(DETACHED_KIDS, steps, 3);
    LinkedIn(DETACHED_KIDS[4], 3, 2);
    LosesAt(run, steps, 3);
  }

  // ----- an element moved before its elder -----

  const MOVED_STEPS := [Unlink(3), Ins(InsertBefore, 2, 3)]

  const MOVED_KIDS: seq<Kids> :=
      [map[1 := [2, 3], 2 := [], 3 := []], map[1 := [2], 2 := [], 3 := []], map[1 := [3, 2], 2 := [], 3 := []]]

  lemma BothMoves()
    ensures StepOk(Regulars(MOVED_KIDS[0]), MOVED_STEPS[0], Regulars(MOVED_KIDS[1]))
    ensures StepOk(Regulars(MOVED_KIDS[1]), MOVED_STEPS[1], Regulars(MOVED_KIDS[2]))
  {
    hide StepOk, Regulars;
    var k := MOVED_KIDS;
    assert RemoveAt(k[0][1], 1) == [2] && InsertAt(k[1][1], 0, 3) == [3, 2];
    UnlinkStep(k[0], 1, 1, 3, k[1]);
    InsStep(k[1], InsertBefore, 2, 3, 1, 0, k[2]);
  }

  lemma MovedSteps()
    ensures RunOk(RunOf(MOVED_KIDS), MOVED_STEPS)
  {
    hide StepOk, Regulars;
    BothMoves();
    assert KidsOk(MOVED_KIDS[0]);
    RegularsOk(MOVED_KIDS[0]);
    KeysOf(MOVED_KIDS);
  }

  /** The journal of a move has one insert and no removal; its replay leaves the element at its old place and makes
      another one with its id. */
  lemma MovedInFork()
    ensures RunOk(RunOf(MOVED_KIDS), MOVED_STEPS) && Loses(RunOf(MOVED_KIDS), MOVED_STEPS)
    ensures Journal(RunOf(MOVED_KIDS), MOVED_STEPS) == [InsertItem(InsertBefore, 2, 3)]
  {
    hide RunOk, Loses, Regulars, There, Comes;
    var run, steps := RunOf(MOVED_KIDS), MOVED_STEPS;
    MovedSteps();
    KeysOf(MOVED_KIDS);
    ThereAtFork(run, steps);
    ThereNext(MOVED_KIDS, steps, 0);
    ThereNext(MOVED_KIDS, steps, 1);
    assert Comes(run, steps, 2, 1) && steps[1].x in There(run, steps, 2, 1);
    LosesAt(run, steps, 3);
    assert steps[..1][..0] == [] && steps[..1] == [Unlink(3)];
    assert Journal(run, steps[..1]) == [];
  }

  // ----- a move that comes right -----

  const HEALED_STEPS := [Unlink(3), Ins(AppendChild, 1, 3), Rem(2)]

  const HEALED_KIDS: seq<Kids> :=
      [map[1 := [2], 2 := [3], 3 := []], map[1 := [2], 2 := [], 3 := []], map[1 := [2, 3], 2 := [], 3 := []],
                                   map[1 := [3], 3 := []]]

  lemma HealedMove()
    ensures StepOk(Regulars(HEALED_KIDS[0]), HEALED_STEPS[0], Regulars(HEALED_KIDS[1]))
    ensures StepOk(Regulars(HEALED_KIDS[1]), HEALED_STEPS[1], Regulars(HEALED_KIDS[2]))
  {
    hide StepOk, Regulars;
    var k := HEALED_KIDS;
    assert RemoveAt(k[0][2], 0) == [] && InsertAt(k[1][1], 1, 3) == [2, 3];
    UnlinkStep(k[0], 2, 0, 3, k[1]);
    InsStep(k[1], AppendChild, 1, 3, 1, 1, k[2]);
  }

  lemma HealedRemoval()
    ensures StepOk(Regulars(HEALED_KIDS[2]), HEALED_STEPS[2], Regulars(HEALED_KIDS[3]))
  {
    hide StepOk, Regulars;
    var k := HEALED_KIDS;
    assert RemoveAt(k[2][1], 0) == [3];
    RemStep(k[2], 1, 0, 2, k[3]);
  }

  lemma HealedSteps()
    ensures RunOk(RunOf(HEALED_KIDS), HEALED_STEPS)
  {
    hide StepOk, Regulars;
    HealedMove();
    HealedRemoval();
    assert KidsOk(HEALED_KIDS[0]);
    RegularsOk(HEALED_KIDS[0]);
    KeysOf(HEALED_KIDS);
  }

  lemma HealedJournal()
    ensures Journal(RunOf(HEALED_KIDS), HEALED_STEPS) == [InsertItem(AppendChild, 1, 3), RemoveItem(2)]
  {
    var run, steps := RunOf(HEALED_KIDS), HEALED_STEPS;
    assert steps[..2] == [Unlink(3), Ins(AppendChild, 1, 3)] && steps[..2][..1] == [Unlink(3)]
        && steps[..2][..1][..0] == [];
    assert Journal(run, steps[..2][..1]) == [];
    assert Journal(run, steps[..2]) == [InsertItem(AppendChild, 1, 3)];
  }

  /** The first item: another element with id 3, at the address 4, becomes the last child of 1. */
  lemma HealedInsert(start: Target, source: Target) returns (t: Target)
    requires Plain(start, Regulars(HEALED_KIDS[0])) && Plain(source, Regulars(HEALED_KIDS[3]))
    ensures t == Apply(start, InsertItem(AppendChild, 1, 3), source)
    ensures t.o == Regulars(map[1 := [2, 4], 2 := [3], 3 := [], 4 := []])
          && t.ids == map[1 := 1, 2 := 2, 3 := 3, 4 := 3]
    ensures forall k :: k in t.index <==> k in t.o.kids
  {
    hide Found, Has, Created;
    PlainHas(start, Regulars(HEALED_KIDS[0]), 1);
    PlainHas(source, Regulars(HEALED_KIDS[3]), 3);
    t := Apply(start, InsertItem(AppendChild, 1, 3), source);
    assert t == Created(start, AppendChild, 1, 3, Kind.Regular, "");
    HealedCreated(start);
  }

  lemma HealedCreated(start: Target)
    requires Plain(start, Regulars(HEALED_KIDS[0]))
    ensures var t := Created(start, AppendChild, 1, 3, Kind.Regular, "");
            && t.o == Regulars(map[1 := [2, 4], 2 := [3], 3 := [], 4 := []])
            && t.ids == map[1 := 1, 2 := 2, 3 := 3, 4 := 3] && forall k :: k in t.index <==> k in t.o.kids
  {
    hide PutAt, Added;
    FourIsFree();
    HealedPlace();
    assert start.o.kids.Keys == {1, 2, 3};
    assert start.ids == map[1 := 1, 2 := 2, 3 := 3];
    forall k
      ensures k in start.index + [4] <==> k in {1, 2, 3, 4}
    {
      OneMore(start.index, 4, k);
    }
  }

  lemma FourIsFree()
    ensures FirstFree({1, 2, 3}, 3) == 4
  {
    assert {1, 2, 3} - {3} == {1, 2};
  }

  lemma HealedPlace()
    ensures PutAt(Added(Regulars(HEALED_KIDS[0]), 4, Kind.Regular, ""), AppendChild, 1, 4)
          == Regulars(map[1 := [2, 4], 2 := [3], 3 := [], 4 := []])
  {
    var o := Added(Regulars(HEALED_KIDS[0]), 4, Kind.Regular, "");
    assert Place(o, AppendChild, 1, 1, 1);
    assert InsertAt([2], 1, 4) == [2, 4];
    assert PutAt(o, AppendChild, 1, 4) == Put(o, 1, 1, 4);
    assert Put(o, 1, 1, 4).kids == map[1 := [2, 4], 2 := [3], 3 := [], 4 := []];
  }

  lemma BelowTwo(o: Outline)
    requires 2 in o.kids && 3 in o.kids && o.kids[2] == [3] && o.kids[3] == []
    ensures Subtree(o, 2) == {2, 3}
  {
    assert Path(o, [2]) && Path(o, [2, 3]);
    assert [2][0] == 2 && Below(o, 2, 2) && [2, 3][0] == 2 && [2, 3][1] == 3 && Below(o, 2, 3);
    forall y | y in Subtree(o, 2)
      ensures y in {2, 3}
    {
      var path :| Path(o, path) && path[0] == 2 && path[|path| - 1] == y;
      assert Edge(o, path, 0) && (|path| > 1 ==> Edge(o, path, 1));
    }
  }

  /** The second item removes the old element 3 together with 2. */
  lemma HealedPrune(t: Target, source: Target) returns (t': Target)
    requires t.o == Regulars(map[1 := [2, 4], 2 := [3], 3 := [], 4 := []])
          && t.ids == map[1 := 1, 2 := 2, 3 := 3, 4 := 3]
    requires forall k :: k in t.index <==> k in t.o.kids
    ensures t' == Apply(t, RemoveItem(2), source)
    ensures t'.o == Regulars(map[1 := [4], 4 := []]) && t'.ids == map[1 := 1, 4 := 3]
  {
    hide Cut, Find, Subtree, Minus;
    FindAny(t.ids, t.index, 2);
    CutTwo();
    PrunedTwo(t);
    t' := Apply(t, RemoveItem(2), source);
    assert Found(t, 2) == 2 && t' == Pruned(t, 2);
  }

  lemma PrunedTwo(t: Target)
    requires t.o == Regulars(map[1 := [2, 4], 2 := [3], 3 := [], 4 := []])
          && t.ids == map[1 := 1, 2 := 2, 3 := 3, 4 := 3]
    ensures Pruned(t, 2).ids == map[1 := 1, 4 := 3]
  {
    hide Cut, Subtree, Minus;
    BelowTwo(t.o);
  }

  lemma CutTwo()
    ensures Cut(Regulars(map[1 := [2, 4], 2 := [3], 3 := [], 4 := []]), 2) == Regulars(map[1 := [4], 4 := []])
  {
    hide Subtree, Minus;
    var o := Regulars(map[1 := [2, 4], 2 := [3], 3 := [], 4 := []]);
    BelowTwo(o);
    Minuses();
    assert Cut(o, 2).kids == map[1 := [4], 4 := []];
  }

  lemma Minuses()
    ensures Minus([2, 4], {2, 3}) == [4] && Minus([], {2, 3}) == []
  {
    assert [2, 4][1..] == [4] && [4][1..] == [];
  }

  lemma HealedElements(t: Target)
    requires t.o == Regulars(map[1 := [4], 4 := []]) && t.ids == map[1 := 1, 4 := 3]
    ensures SameElement(t, 1, Regulars(HEALED_KIDS[3]), 1) && SameElement(t, 4, Regulars(HEALED_KIDS[3]), 3)
  {
  }

  lemma HealedIsRebuilt(t: Target)
    requires t.o == Regulars(map[1 := [4], 4 := []]) && t.ids == map[1 := 1, 4 := 3]
    ensures Rebuilt(Regulars(HEALED_KIDS[0]), Regulars(HEALED_KIDS[3]), t)
  {
    hide SameElement;
    HealedElements(t);
    assert t.ids[1] == 1 && t.ids[4] == 3;
  }

  /** A move whose replay comes right: the old place of the element is removed with the element that it had left. */
  lemma MoveHealed(start: Target, source: Target)
    requires Plain(start, RunOf(HEALED_KIDS)[0]) && Plain(source, RunOf(HEALED_KIDS)[3])
    ensures RunOk(RunOf(HEALED_KIDS), HEALED_STEPS)
    ensures Rebuilt(RunOf(HEALED_KIDS)[0], RunOf(HEALED_KIDS)[3],
          Replayed(start, Journal(RunOf(HEALED_KIDS), HEALED_STEPS), source))
  {
    hide RunOk, Regulars, Plain, Rebuilt, Apply;
    KeysOf(HEALED_KIDS);
    HealedSteps();
    HealedJournal();
    var t := HealedInsert(start, source);
    var t' := HealedPrune(t, source);
    HealedIsRebuilt(t');
    var entries := [InsertItem(AppendChild, 1, 3), RemoveItem(2)];
    assert entries[..1] == [InsertItem(AppendChild, 1, 3)] && entries[..1][..0] == [];
    assert Replayed(start, entries[..1], source) == t;
  }

  // ----- a comment -----

  const COMMENT_STEPS := [New(2, Kind.Comment, ""), Txt(2, "c"), Ins(AppendChild, 1, 2), Txt(2, "d")]

  ghost function WithComment(children: seq<ElementId>, text: string): Outline {
    Outline(map[1 := children, 2 := []], map[1 := Kind.Regular, 2 := Kind.Comment], map[1 := "", 2 := text])
  }

  ghost function CommentRun(): (run: seq<Outline>)
    ensures |run| == 5
  {
    [Regulars(ROOT_ONLY), WithComment([], ""), WithComment([], "c"), WithComment([2], "c"), WithComment([2], "d")]
  }

  lemma CommentComes()
    ensures StepOk(CommentRun()[2], COMMENT_STEPS[2], CommentRun()[3])
  {
    var o, o' := CommentRun()[2], CommentRun()[3];
    assert InsertAt(o.kids[1], 0, 2) == [2];
    assert o'.kids == o.kids[1 := [2]];
    assert PutInto(o, AppendChild, 1, 2, 1, 0, o');
    assert forall f :: !HasFather(o, 2, f);
  }

  lemma CommentSteps()
    ensures RunOk(CommentRun(), COMMENT_STEPS)
  {
    hide StepOk, CommentRun, OutlineOk;
    CommentMade();
    CommentTexts();
    CommentComes();
    CommentFork();
  }

  lemma CommentFork()
    ensures OutlineOk(CommentRun()[0]) && 2 !in CommentRun()[0].kids
  {
    hide OutlineOk;
    assert KidsOk(ROOT_ONLY);
    RegularsOk(ROOT_ONLY);
  }

  lemma CommentMade()
    ensures StepOk(CommentRun()[0], COMMENT_STEPS[0], CommentRun()[1])
  {
    assert CommentRun()[1] == Added(CommentRun()[0], 2, Kind.Comment, "");
  }

  lemma CommentTexts()
    ensures StepOk(CommentRun()[1], COMMENT_STEPS[1], CommentRun()[2])
          && StepOk(CommentRun()[3], COMMENT_STEPS[3], CommentRun()[4])
  {
    var run := CommentRun();
    assert run[2] == run[1].(text := run[1].text[2 := "c"]);
    assert run[4] == run[3].(text := run[3].text[2 := "d"]);
  }

  lemma CommentFather(f: ElementId)
    ensures HasFather(CommentRun()[3], 2, f) <==> f == 1
    ensures IsLinked(CommentRun()[3], 2) && !IsLinked(CommentRun()[1], 2)
  {
    assert HasFather(CommentRun()[3], 2, 1);
  }

  /** What is there: the root, and the comment once it is inserted. */
  lemma CommentThere(n: nat)
    requires 3 <= n <= 4
    ensures var (run, steps) := (CommentRun(), COMMENT_STEPS);
            && There(run, steps, n, 0) == {1} && There(run, steps, n, 1) == {1} && There(run, steps, n, 2) == {1}
            && There(run, steps, n, 3) == {1, 2} && There(run, steps, n, n) == {1, 2}
  {
    var run, steps := CommentRun(), COMMENT_STEPS;
    assert run[0].kids.Keys == {1};
    assert There(run, steps, n, 1) == {1};
    assert There(run, steps, n, 2) == {1};
    assert Comes(run, steps, n, 2);
    assert There(run, steps, n, 3) == {1} + {2};
  }

  lemma CommentTidy(n: nat)
    requires 3 <= n <= 4
    ensures Tidy(CommentRun(), COMMENT_STEPS, n) && !KindsTold(CommentRun(), COMMENT_STEPS, n)
  {
    hide There;
    CommentThere(n);
    assert 2 in CommentRun()[n].kind;
  }

  lemma CommentFits(i: nat)
    requires i < 3
    ensures Fits(CommentRun(), COMMENT_STEPS, 3, i)
  {
    hide There, HasFather, IsLinked;
    CommentThere(3);
    forall f
      ensures HasFather(CommentRun()[3], 2, f) <==> f == 1
    {
      CommentFather(f);
    }
    CommentFather(1);
  }

  /** A comment, made, filled and appended after the fork: the replay goes through, and leaves an element with the key
      of a comment that has no text. When the comment gets another text, the replay raises an exception. */
  lemma CommentIsHollow(start: Target, source: Target)
    requires Plain(start, CommentRun()[0])
    ensures RunOk(CommentRun(), COMMENT_STEPS)
    ensures Plain(source, CommentRun()[3]) ==>
              Applies(start, Journal(CommentRun(), COMMENT_STEPS[..3]), source)
              && !Rebuilt(CommentRun()[0], CommentRun()[3], Replica(start, CommentRun(), COMMENT_STEPS, source, 3))
    ensures Plain(source, CommentRun()[4]) ==> !Applies(start, Journal(CommentRun(), COMMENT_STEPS[..4]), source)
  {
    hide RunOk, Plain, Applies, Rebuilt, Replica, Fits, Tidy, NoMove, KindsTold, TextsTold, CommentRun, Journal;
    CommentSteps();
    CommentTidy(3);
    CommentTidy(4);
    if Plain(source, CommentRun()[3]) {
      TidyRunIsRebuilt(start, CommentRun(), COMMENT_STEPS, 3, source);
      ReplayGoes(start, CommentRun(), COMMENT_STEPS, 3, source);
      forall i | 0 <= i < 3
        ensures Fits(CommentRun(), COMMENT_STEPS, 3, i)
      {
        CommentFits(i);
      }
    }
    if Plain(source, CommentRun()[4]) {
      TidyRunIsRebuilt(start, CommentRun(), COMMENT_STEPS, 4, source);
      ReplayGoes(start, CommentRun(), COMMENT_STEPS, 4, source);
      CommentTakesNoText();
    }
  }

  lemma CommentTakesNoText()
    ensures !Fits(CommentRun(), COMMENT_STEPS, 4, 3)
  {
    hide There, IsLinked, HasFather;
    CommentThere(4);
    CommentFather(1);
  }
}
