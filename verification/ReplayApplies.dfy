/** When a replay goes through without an exception, while nothing is moved. */
module ReplayApplies {
  import opened Applying
  import opened DomTree
  import opened JournalTheorem
  import opened Outlines
  import opened Replay
  import opened Simulation

  /** The element that step i inserts or removes hangs under one that is there, and the element that gets a text can
      have one. */
  ghost predicate Fits(run: seq<Outline>, steps: seq<Step>, n: nat, i: nat)
    requires i < n <= |steps| < |run|
  {
    && (Comes(run, steps, n, i) ==> FatherThere(run[i + 1], steps[i].x, There(run, steps, n, i)))
    && (steps[i].Rem? && steps[i].x in There(run, steps, n, i) ==>
          FatherThere(run[i], steps[i].x, There(run, steps, n, i)))
    && (steps[i].Txt? && IsLinked(run[i], steps[i].x) && steps[i].x in There(run, steps, n, i) ==>
          TakesText(run, i, steps[i].x))
  }

  /** Of the textual nodes that come, only text nodes are textual in the replica. */
  ghost predicate TakesText(run: seq<Outline>, i: nat, x: ElementId)
    requires i < |run|
  {
    x in run[0].kids || (x in run[i].kind && run[i].kind[x].Text?)
  }

  ghost predicate FatherThere(o: Outline, x: ElementId, there: set<ElementId>) {
    forall f :: HasFather(o, x, f) ==> f in there
  }

  lemma PlaceFits(o: Outline, there: set<ElementId>, t: Outline, mode: Mode, b: ElementId, f: ElementId, n: nat)
    requires OutlineOk(o) && Follows(o, there, t) && Place(o, mode, b, f, n) && b in there && f in o.kind
          && !Textual(o.kind[f])
    ensures CanPlace(t, mode, b) <==> f in there
  {
    hide OutlineOk, Follows, Place;
    if f in there {
      SamePlace(o, there, t, mode, b, f, n);
      FollowsNode(o, there, t, f);
    }
    if CanPlace(t, mode, b) {
      var g, k: nat :| Place(t, mode, b, g, k) && g in t.kind && !Textual(t.kind[g]);
      PlacedThere(o, there, t, mode, b, f, n, g, k);
    }
  }

  lemma InsertFits(run: seq<Outline>, steps: seq<Step>, n: nat, i: nat, t: Target, source: Target)
    requires RunOk(run, steps) && i < n <= |steps| && steps[i].Ins? && Steady(run, steps, n, i) && Plain(source, run[n])
    requires Plain(t, t.o) && Follows(run[i], There(run, steps, n, i), t.o)
    ensures ItemApplies(t, InsertItem(steps[i].mode, steps[i].base, steps[i].x), source) <==> Fits(run, steps, n, i)
  {
    hide OutlineOk, StepOk, Follows, Steady, There, CanPlace, Has, Found, Place, HasFather, IsLinked;
    var o, there, x, b, mode := run[i], There(run, steps, n, i), steps[i].x, steps[i].base, steps[i].mode;
    StepAt(run, steps, i);
    TargetKeys(o, there, t.o);
    PlainHas(t, t.o, b);
    PlainHas(source, run[n], x);
    if Comes(run, steps, n, i) {
      ComesNew(run, steps, n, i);
      var f, k := InsIs(o, steps[i], run[i + 1]);
      Fatherless(o, x);
      PlaceFits(o, there, t.o, mode, b, f, k);
      assert HasFather(run[i + 1], x, f);
    }
  }

  lemma RemovalFits(run: seq<Outline>, steps: seq<Step>, n: nat, i: nat, t: Target, source: Target)
    requires RunOk(run, steps) && i < n <= |steps| && steps[i].Rem? && Plain(t, t.o)
          && Follows(run[i], There(run, steps, n, i), t.o)
    ensures ItemApplies(t, RemoveItem(steps[i].x), source) <==> Fits(run, steps, n, i)
  {
    hide OutlineOk, StepOk, Follows, There, Has, Found, HasFather;
    var o, there, x := run[i], There(run, steps, n, i), steps[i].x;
    StepAt(run, steps, i);
    TargetKeys(o, there, t.o);
    PlainHas(t, t.o, x);
    NotComing(run, steps, n, i);
    var f, k := RemIs(o, x, run[i + 1]);
    FatherAt(o, x, f, k);
    if x in there {
      LinkedThere(o, there, t.o, x, f);
    }
  }

  lemma FatherAt(o: Outline, x: ElementId, f: ElementId, n: nat)
    requires OutlineOk(o) && f in o.kids && n < |o.kids[f]| && o.kids[f][n] == x
    ensures HasFather(o, x, f) && forall p :: HasFather(o, x, p) ==> p == f
  {
    assert HasFather(o, x, f);
    forall p | HasFather(o, x, p)
      ensures p == f
    {
    }
  }

  lemma LinkedThere(o: Outline, there: set<ElementId>, t: Outline, x: ElementId, f: ElementId)
    requires Follows(o, there, t) && x in there && HasFather(o, x, f) && forall p :: HasFather(o, x, p) ==> p == f
    ensures IsLinked(t, x) <==> f in there
  {
    hide HasFather, Follows;
    FatherIs(o, there, t, x, f);
    if IsLinked(t, x) {
      var g :| HasFather(t, x, g);
      FatherIs(o, there, t, x, g);
    }
  }

  lemma TextFits(run: seq<Outline>, steps: seq<Step>, n: nat, i: nat, t: Target, source: Target)
    requires RunOk(run, steps) && i < n <= |steps| && steps[i].Txt? && IsLinked(run[i], steps[i].x)
          && Plain(source, run[n])
    requires Plain(t, t.o) && Mirrors(run, steps, n, i, t.o) && forall k :: 0 <= k < i ==> Steady(run, steps, n, k)
    ensures ItemApplies(t, TextItem(steps[i].x), source) <==> Fits(run, steps, n, i)
  {
    hide OutlineOk, StepOk, Has, Found, There, IsLinked, Follows, ContentFollows, Journal, Steady;
    var x := steps[i].x;
    StepAt(run, steps, i);
    TextStepIs(run[i], steps[i], run[i + 1]);
    NotComing(run, steps, n, i);
    TargetKeys(run[i], There(run, steps, n, i), t.o);
    PlainHas(t, t.o, x);
    PlainHas(source, run[n], x);
    if x in t.o.kids {
      if x in run[n].kids {
        RunKeeps(run, steps, n);
        KindKnown(run[n], x);
        Stays(run, steps, i, i, n, x);
        assert ContentFollows(run[0], Journal(run, steps[..i]), run[n], t.o, x);
        TextualHere(run[0], Journal(run, steps[..i]), run[n], t.o, x);
      } else {
        ThereStays(run, steps, n, i, x);
      }
    }
  }

  lemma TextStepIs(o: Outline, s: Step, o': Outline)
    requires StepOk(o, s, o') && s.Txt?
    ensures s.x in o.kids && s.x in o.kind && Textual(o.kind[s.x])
  {
  }

  lemma TextualHere(first: Outline, told: seq<Entry>, last: Outline, t: Outline, x: ElementId)
    requires ContentFollows(first, told, last, t, x) && x in t.kind && x in t.text && x in last.kids && x in last.kind
          && x in last.text
    requires Textual(last.kind[x])
    ensures Textual(t.kind[x]) <==> x in first.kids || last.kind[x].Text?
  {
  }

  /** An element that is there and that the source does not keep is one of the fork. */
  lemma {:induction false} ThereStays(run: seq<Outline>, steps: seq<Step>, n: nat, i: nat, x: ElementId)
    requires RunOk(run, steps) && i <= n <= |steps| && x in There(run, steps, n, i) && x !in run[n].kids
    ensures x in run[0].kids
  {
    hide StepOk, OutlineOk;
    if i > 0 {
      ThereStays(run, steps, n, i - 1, x);
    }
  }

  /** The item of step i applies exactly if the step fits. */
  lemma StepFits(run: seq<Outline>, steps: seq<Step>, n: nat, i: nat, t: Target, source: Target)
    requires RunOk(run, steps) && i < n <= |steps| && Plain(source, run[n])
    requires Plain(t, t.o) && Mirrors(run, steps, n, i, t.o) && forall k :: 0 <= k <= i ==> Steady(run, steps, n, k)
    ensures var e := EntryOf(run[i], steps[i]); (e == [] || ItemApplies(t, e[0], source)) <==> Fits(run, steps, n, i)
  {
    hide OutlineOk, StepOk, Follows, ContentFollows, Steady, There, ItemApplies, Plain, IsLinked, FatherThere, Journal;
    NotComing(run, steps, n, i);
    match steps[i]
    case New(_, _, _) =>
    case Unlink(_) =>
    case Ins(_, _, _) => InsertFits(run, steps, n, i, t, source);
    case Rem(_) => RemovalFits(run, steps, n, i, t, source);
    case Txt(x, _) =>
      if IsLinked(run[i], x) {
        TextFits(run, steps, n, i, t, source);
      }
  }

  lemma {:induction false} ReplayGoesTo(start: Target, run: seq<Outline>, steps: seq<Step>, n: nat, source: Target,
      i: nat)
    requires RunOk(run, steps) && i <= n <= |steps| && Plain(start, run[0]) && Plain(source, run[n])
          && NoMove(run, steps, n)
    ensures Applies(start, Journal(run, steps[..i]), source) <==> forall k :: 0 <= k < i ==> Fits(run, steps, n, k)
  {
    hide OutlineOk, StepOk, Steady, There, Plain, Fits, Applies, Journal;
    if i == 0 {
      NoJournal(run, steps);
      NothingApplied(start, source);
    } else {
      ReplayGoesTo(start, run, steps, n, source, i - 1);
      GoesOn(start, run, steps, n, source, i - 1);
      OneMoreFits(run, steps, n, i - 1);
    }
  }

  lemma NoJournal(run: seq<Outline>, steps: seq<Step>)
    requires |run| >= |steps|
    ensures Journal(run, steps[..0]) == []
  {
  }

  lemma OneMoreFits(run: seq<Outline>, steps: seq<Step>, n: nat, i: nat)
    requires i < n <= |steps| < |run|
    ensures (forall k :: 0 <= k < i + 1 ==> Fits(run, steps, n, k)) <==>
              (forall k :: 0 <= k < i ==> Fits(run, steps, n, k)) && Fits(run, steps, n, i)
  {
    hide Fits;
  }

  lemma GoesOn(start: Target, run: seq<Outline>, steps: seq<Step>, n: nat, source: Target, i: nat)
    requires RunOk(run, steps) && i < n <= |steps| && Plain(start, run[0]) && Plain(source, run[n])
          && NoMove(run, steps, n)
    ensures Applies(start, Journal(run, steps[..i + 1]), source) <==>
              Applies(start, Journal(run, steps[..i]), source) && Fits(run, steps, n, i)
  {
    hide OutlineOk, StepOk, Follows, Steady, There, ItemApplies, Plain, Fits, Applies, Replayed, EntryOf, Journal;
    ReplicaMirrors(start, run, steps, n, source, i);
    var before, e, t := Journal(run, steps[..i]), EntryOf(run[i], steps[i]), Replica(start, run, steps, source, i);
    StepFits(run, steps, n, i, t, source);
    JournalStep(run, steps, i + 1);
    OneEntry(run[i], steps[i]);
    if e == [] {
      assert before + e == before;
    } else {
      assert e == [e[0]];
      AppliesMore(start, before, e[0], source);
    }
  }

  lemma OneEntry(o: Outline, s: Step)
    ensures |EntryOf(o, s)| <= 1
  {
  }

  /** While nothing is moved, a replay on the state of the fork goes through without an exception if and only if every
      element that comes or goes hangs under one that is there, and no text is set of a comment or processing
      instruction that came. */
  lemma ReplayGoes(start: Target, run: seq<Outline>, steps: seq<Step>, n: nat, source: Target)
    requires RunOk(run, steps) && n <= |steps| && Plain(start, run[0]) && Plain(source, run[n])
    ensures NoMove(run, steps, n) ==>
              (Applies(start, Journal(run, steps[..n]), source) <==> forall i :: 0 <= i < n ==> Fits(run, steps, n, i))
  {
    hide OutlineOk, StepOk, Plain, Fits, Applies, NoMove;
    if NoMove(run, steps, n) {
      ReplayGoesTo(start, run, steps, n, source, n);
    }
  }

  lemma {:induction false} CameStays(run: seq<Outline>, steps: seq<Step>, n: nat, i: nat, k: nat, x: ElementId)
    requires RunOk(run, steps) && i <= k <= n <= |steps| && x in There(run, steps, n, i) && x in run[n].kids
    ensures x in There(run, steps, n, k)
    decreases k
  {
    hide StepOk, OutlineOk, Comes;
    if i < k {
      CameStays(run, steps, n, i, k - 1, x);
      if steps[k - 1].Rem? {
        GoneAtEnd(run, steps, n, k - 1);
      }
    }
  }

  lemma CameTakesText(run: seq<Outline>, steps: seq<Step>, n: nat, i: nat)
    requires RunOk(run, steps) && i < n <= |steps| && steps[i].Txt? && steps[i].x in There(run, steps, n, i)
          && KindsTold(run, steps, n)
    ensures TakesText(run, i, steps[i].x)
  {
    hide StepOk, OutlineOk, There;
    var x := steps[i].x;
    StepAt(run, steps, i);
    TextStepIs(run[i], steps[i], run[i + 1]);
    if x !in run[n].kids {
      ThereStays(run, steps, n, i, x);
    } else {
      Stays(run, steps, i, i, n, x);
      CameStays(run, steps, n, i, n, x);
    }
  }

  lemma RootedFits(run: seq<Outline>, steps: seq<Step>, n: nat, i: nat)
    requires RunOk(run, steps) && i < n <= |steps| && Rooted(run, steps, n, i) && Rooted(run, steps, n, i + 1)
          && TidyStep(run, steps, n, i)
    requires KindsTold(run, steps, n)
    ensures Fits(run, steps, n, i)
  {
    hide OutlineOk, StepOk, There, HasFather, IsLinked, TidyStep, KindsTold;
    StepAt(run, steps, i);
    if steps[i].Txt? && steps[i].x in There(run, steps, n, i) {
      CameTakesText(run, steps, n, i);
    }
    if Comes(run, steps, n, i) {
      var f, k := InsIs(run[i], steps[i], run[i + 1]);
      BaseIsThere(run, steps, n, i, f, k);
      Fatherless(run[i], steps[i].x);
    }
  }

  /** The journal of a tidy run goes through on a fork, if no comments and processing instructions came, and rebuilds
      the source exactly if, besides, the texts are told. */
  lemma FaithfulReplay(start: Target, run: seq<Outline>, steps: seq<Step>, n: nat, source: Target)
    requires RunOk(run, steps) && n <= |steps| && Plain(start, run[0]) && Plain(source, run[n])
    requires Tidy(run, steps, n)
    ensures KindsTold(run, steps, n) ==> Applies(start, Journal(run, steps[..n]), source)
    ensures Rebuilt(run[0], run[n], Replica(start, run, steps, source, n)) <==>
          TextsTold(run, steps, n) && KindsTold(run, steps, n)
  {
    hide OutlineOk, StepOk, Plain, Rooted, Fits, TidyStep, Rebuilt, Applies, TextsTold, KindsTold, Replica, NoMove;
    TidyRunIsRebuilt(start, run, steps, n, source);
    ReplayGoes(start, run, steps, n, source);
    if KindsTold(run, steps, n) {
      forall i | 0 <= i < n
        ensures Fits(run, steps, n, i)
      {
        TidyIsRooted(run, steps, n, i);
        TidyIsRooted(run, steps, n, i + 1);
        assert TidyStep(run, steps, n, i);
        RootedFits(run, steps, n, i);
      }
    }
  }
}
