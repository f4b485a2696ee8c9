/** When replaying a journal rebuilds the source, if nothing that the target has is moved: exactly when the attached
    elements are there and the texts are told. */
module JournalTheorem {
  import opened DomTree
  import opened Outlines
  import opened Replay
  import opened Simulation

  // ----- step by step -----

  lemma JournalStep(run: seq<Outline>, steps: seq<Step>, i: nat)
    requires RunOk(run, steps) && 0 < i <= |steps|
    ensures Journal(run, steps[..i]) == Journal(run, steps[..i - 1]) + EntryOf(run[i - 1], steps[i - 1])
  {
    assert steps[..i][..i - 1] == steps[..i - 1];
  }

  lemma ReplayedMore(t: Target, before: seq<Entry>, e: seq<Entry>, source: Target)
    requires |e| <= 1
    ensures Replayed(t, before + e, source) == if e == [] then Replayed(t, before, source)
          else Apply(Replayed(t, before, source), e[0], source)
  {
    if e == [] {
      assert before + e == before;
    } else {
      assert (before + e)[..|before|] == before;
    }
  }

  /** The target after the items of the first i steps. */
  ghost function Replica(start: Target, run: seq<Outline>, steps: seq<Step>, source: Target, i: nat): Target
    requires i <= |steps| < |run|
  {
    Replayed(start, Journal(run, steps[..i]), source)
  }

  lemma ReplicaStep(start: Target, run: seq<Outline>, steps: seq<Step>, source: Target, i: nat)
    requires RunOk(run, steps) && 0 < i <= |steps|
    ensures var (e, t) := (EntryOf(run[i - 1], steps[i - 1]), Replica(start, run, steps, source, i - 1));
            Replica(start, run, steps, source, i) == (if e == [] then t else Apply(t, e[0], source))
  {
    hide Apply, Journal;
    JournalStep(run, steps, i);
    ReplayedMore(start, Journal(run, steps[..i - 1]), EntryOf(run[i - 1], steps[i - 1]), source);
  }

  /** An element of the fork that the source still has stays in the target. */
  lemma {:induction false} FirstThere(run: seq<Outline>, steps: seq<Step>, n: nat, i: nat, y: ElementId)
    requires RunOk(run, steps) && i <= n <= |steps| && y in run[0].kids && y in run[i].kids
    ensures y in There(run, steps, n, i)
  {
    hide StepOk, OutlineOk, Comes;
    if i > 0 {
      Stays(run, steps, 0, i - 1, i, y);
      FirstThere(run, steps, n, i - 1, y);
      StepAt(run, steps, i - 1);
      StepStays(run[i - 1], steps[i - 1], run[i], y);
    }
  }

  lemma InsIs(o: Outline, s: Step, o': Outline) returns (f: ElementId, n: nat)
    requires OutlineOk(o) && StepOk(o, s, o') && s.Ins?
    ensures PutInto(o, s.mode, s.base, s.x, f, n, o') && s.x in o.kids && !IsLinked(o, s.x) && s.base in o.kids
          && s.base != s.x
    ensures forall y, p :: HasFather(o', y, p) <==> HasFather(o, y, p) || (y == s.x && p == f)
  {
    f, n :| PutInto(o, s.mode, s.base, s.x, f, n, o');
    PutOk(o, f, n, s.x);
  }

  lemma UnlinkIs(o: Outline, s: Step, o': Outline) returns (f: ElementId, n: nat)
    requires OutlineOk(o) && StepOk(o, s, o') && s.Unlink?
    ensures UnlinkedFrom(o, s.x, f, n, o') && HasFather(o, s.x, f)
    ensures forall y, p :: HasFather(o', y, p) <==> HasFather(o, y, p) && y != s.x
  {
    f, n :| UnlinkedFrom(o, s.x, f, n, o');
    UnlinkOk(o, f, n, s.x);
  }

  /** What is there is in the source too, at that moment. */
  lemma {:induction false} ThereIsHere(run: seq<Outline>, steps: seq<Step>, n: nat, i: nat)
    requires RunOk(run, steps) && i <= n <= |steps|
    ensures There(run, steps, n, i) <= run[i].kids.Keys
  {
    hide OutlineOk, StepOk;
    if i > 0 {
      ThereIsHere(run, steps, n, i - 1);
      StepAt(run, steps, i - 1);
      if Comes(run, steps, n, i - 1) {
        var f, k := InsIs(run[i - 1], steps[i - 1], run[i]);
      }
      forall y | y in There(run, steps, n, i)
        ensures y in run[i].kids
      {
        StepStays(run[i - 1], steps[i - 1], run[i], y);
      }
    }
  }

  // ----- the target while nothing is moved -----

  ghost predicate Mirrors(run: seq<Outline>, steps: seq<Step>, n: nat, i: nat, t: Outline)
    requires i <= n <= |steps| < |run|
  {
    && Follows(run[i], There(run, steps, n, i), t)
    && forall y :: y in t.kids ==> ContentFollows(run[0], Journal(run, steps[..i]), run[n], t, y)
  }

  /** The item of step i - 1, if it has one, done to the target. */
  ghost function AppliedAll(o: Outline, e: seq<Entry>, source: Outline): Outline {
    if e == [] then o else Applied(o, e[0], source)
  }

  lemma StartMirrors(run: seq<Outline>, steps: seq<Step>, n: nat)
    requires RunOk(run, steps) && n <= |steps|
    ensures Mirrors(run, steps, n, 0, run[0])
  {
    hide StepOk;
    var o := run[0];
    forall y | y in o.kids
      ensures NodeFollows(o, o.kids.Keys, o, y)
    {
      assert forall z :: z in o.kids[y] ==> HasFather(o, z, y);
      FilterAll(o.kids[y], o.kids.Keys);
    }
    forall y | y in o.kids
      ensures ContentFollows(o, Journal(run, steps[..0]), run[n], o, y)
    {
      FirstContent(run, steps, n, y);
    }
  }

  lemma FirstContent(run: seq<Outline>, steps: seq<Step>, n: nat, y: ElementId)
    requires RunOk(run, steps) && n <= |steps| && y in run[0].kids
    ensures ContentFollows(run[0], [], run[n], run[0], y)
  {
    hide StepOk, OutlineOk;
    if y in run[n].kids {
      Stays(run, steps, 0, 0, n, y);
    }
  }

  /** An insert that comes brings an element that the fork did not have, and nothing below it. */
  lemma ComesNew(run: seq<Outline>, steps: seq<Step>, n: nat, i: nat)
    requires RunOk(run, steps) && i < n <= |steps| && Steady(run, steps, n, i) && Comes(run, steps, n, i)
    ensures var (o, x) := (run[i], steps[i].x);
            && x !in There(run, steps, n, i) && x !in run[0].kids && x in o.kids && x in o.kind && x in run[n].kind
            && x in run[n].text
            && run[n].kind[x] == o.kind[x]
            && (forall z :: z in o.kids[x] ==> z !in There(run, steps, n, i))
  {
    hide OutlineOk, NoMove;
    var o, x := run[i], steps[i].x;
    StepAt(run, steps, i);
    var f, k := InsIs(o, steps[i], run[i + 1]);
    if x in run[0].kids {
      FirstThere(run, steps, n, i, x);
    }
    RunKeeps(run, steps, n);
    KindKnown(run[n], x);
    KindKnown(o, x);
    Stays(run, steps, i, i, n, x);
    forall z | z in o.kids[x]
      ensures z !in There(run, steps, n, i)
    {
      assert HasFather(o, z, x) && HasFather(run[i + 1], z, x);
      assert x in There(run, steps, n, i + 1);
    }
  }

  lemma InsMirrors(run: seq<Outline>, steps: seq<Step>, n: nat, i: nat, t: Outline)
    requires RunOk(run, steps) && i < n <= |steps| && Steady(run, steps, n, i) && steps[i].Ins?
    requires Follows(run[i], There(run, steps, n, i), t)
    ensures Follows(run[i + 1], There(run, steps, n, i + 1),
          Applied(t, InsertItem(steps[i].mode, steps[i].base, steps[i].x), run[n]))
  {
    hide OutlineOk, Follows, Applied, Steady, PutInto;
    var o, x, there := run[i], steps[i].x, There(run, steps, n, i);
    StepAt(run, steps, i);
    var f, k := InsIs(o, steps[i], run[i + 1]);
    PutIntoIs(o, steps[i].mode, steps[i].base, x, f, k, run[i + 1]);
    TargetKeys(o, there, t);
    if Comes(run, steps, n, i) {
      ComesNew(run, steps, n, i);
      FollowCome(o, f, k, x, there, t, steps[i].mode, steps[i].base, run[n]);
    } else {
      NotMoved(run, steps, n, i, f);
      SkippedIs(t, steps[i].mode, steps[i].base, x, run[n]);
      OutlineKinds(o);
      SamePut(o, f, k, x, there);
      FollowSame(o, run[i + 1], there, t);
    }
  }

  lemma PutIntoIs(o: Outline, mode: Mode, b: ElementId, x: ElementId, f: ElementId, n: nat, o': Outline)
    requires PutInto(o, mode, b, x, f, n, o')
    ensures f != x && Place(o, mode, b, f, n) && f in o.kids && n <= |o.kids[f]| && o' == Put(o, f, n, x)
  {
  }

  lemma OutlineKinds(o: Outline)
    requires OutlineOk(o)
    ensures o.kind.Keys == o.kids.Keys && o.text.Keys == o.kids.Keys && 0 !in o.kids
  {
  }

  lemma SkippedIs(t: Outline, mode: Mode, b: ElementId, x: ElementId, source: Outline)
    requires b !in t.kids || x !in source.kids
    ensures Applied(t, InsertItem(mode, b, x), source) == t
  {
  }

  /** A step that is steady gives no father that is there to an element that was there, unless it comes. */
  lemma NotMoved(run: seq<Outline>, steps: seq<Step>, n: nat, i: nat, f: ElementId)
    requires RunOk(run, steps) && i < n <= |steps| && Steady(run, steps, n, i) && !Comes(run, steps, n, i)
    requires (steps[i].Ins? && HasFather(run[i + 1], steps[i].x, f) && !HasFather(run[i], steps[i].x, f))
          || (steps[i].Unlink? && HasFather(run[i], steps[i].x, f) && !HasFather(run[i + 1], steps[i].x, f))
    ensures !(steps[i].x in There(run, steps, n, i) && f in There(run, steps, n, i))
  {
    hide Comes, HasFather;
  }

  lemma StepMirrors(run: seq<Outline>, steps: seq<Step>, n: nat, i: nat, t: Outline)
    requires RunOk(run, steps) && i < n <= |steps| && Steady(run, steps, n, i)
          && Follows(run[i], There(run, steps, n, i), t)
    ensures Follows(run[i + 1], There(run, steps, n, i + 1), AppliedAll(t, EntryOf(run[i], steps[i]), run[n]))
  {
    hide OutlineOk, Follows, Applied, Steady, StepOk, Comes, IsLinked;
    var o, there := run[i], There(run, steps, n, i);
    StepAt(run, steps, i);
    TargetKeys(o, there, t);
    OutlineKinds(o);
    NotComing(run, steps, n, i);
    match steps[i]
    case New(x, kind, text) =>
      NewIs(o, x, kind, text, run[i + 1]);
      SameNew(o, x, kind, text, there);
      FollowSame(o, run[i + 1], there, t);
    case Ins(_, _, _) =>
      InsMirrors(run, steps, n, i, t);
    case Rem(x) =>
      var f, k := RemIs(o, x, run[i + 1]);
      FollowRem(o, f, k, x, there, t, run[n]);
    case Unlink(x) =>
      var f, k := UnlinkIs(o, steps[i], run[i + 1]);
      NotMoved(run, steps, n, i, f);
      SameUnlink(o, f, k, x, there);
      FollowSame(o, run[i + 1], there, t);
    case Txt(x, text) =>
      TextIs(o, x, text, run[i + 1], there, t, run[n]);
  }

  lemma NotComing(run: seq<Outline>, steps: seq<Step>, n: nat, i: nat)
    requires i < n <= |steps| < |run|
    ensures !steps[i].Ins? ==> !Comes(run, steps, n, i)
  {
  }

  lemma NewIs(o: Outline, x: ElementId, kind: Kind, text: string, o': Outline)
    requires StepOk(o, New(x, kind, text), o')
    ensures x !in o.kids && o' == Added(o, x, kind, text)
  {
  }

  lemma RemIs(o: Outline, x: ElementId, o': Outline) returns (f: ElementId, n: nat)
    requires StepOk(o, Rem(x), o')
    ensures f in o.kids && n < |o.kids[f]| && o.kids[f][n] == x && f != x && x in o.kids && o.kids[x] == []
          && o' == Dropped(o, f, n, x)
  {
    f, n :| DroppedFrom(o, x, f, n, o');
  }

  lemma TextIs(o: Outline, x: ElementId, text: string, o': Outline, there: set<ElementId>, t: Outline, last: Outline)
    requires OutlineOk(o) && StepOk(o, Txt(x, text), o') && Follows(o, there, t)
    ensures Follows(o', there, AppliedAll(t, EntryOf(o, Txt(x, text)), last))
  {
    hide Filter, IsLinked;
    forall y | y in there
      ensures NodeFollows(o', there, t, y)
    {
      assert NodeFollows(o, there, t, y);
    }
    assert Follows(o', there, t);
    if IsLinked(o, x) {
      TextOnly(o', there, t, x, last);
    }
  }

  lemma TextOnly(o: Outline, there: set<ElementId>, t: Outline, x: ElementId, last: Outline)
    requires Follows(o, there, t)
    ensures Follows(o, there, Applied(t, TextItem(x), last))
  {
    hide Filter;
    var t' := Applied(t, TextItem(x), last);
    forall y | y in there
      ensures NodeFollows(o, there, t', y)
    {
      assert NodeFollows(o, there, t, y);
    }
  }

  /** The item of a steady step brings no id a second time, and creates only what the run created. */
  lemma ItemIsNew(run: seq<Outline>, steps: seq<Step>, n: nat, i: nat, t: Outline, e: Entry)
    requires RunOk(run, steps) && i < n <= |steps| && Steady(run, steps, n, i) && t.kids.Keys == There(run, steps, n, i)
    requires EntryOf(run[i], steps[i]) == [e]
    ensures BringsNew(t, e, run[n])
    ensures e.InsertItem? && e.base in t.kids && e.alt in run[n].kids && e.alt in run[n].kind ==> e.alt !in run[0].kids
  {
    hide StepOk, OutlineOk, Steady, IsLinked;
    if Comes(run, steps, n, i) {
      ComesNew(run, steps, n, i);
    }
  }

  lemma ContentsMirror(run: seq<Outline>, steps: seq<Step>, n: nat, i: nat, t: Outline, y: ElementId)
    requires RunOk(run, steps) && i < n <= |steps| && Steady(run, steps, n, i) && Mirrors(run, steps, n, i, t)
    ensures ContentFollows(run[0], Journal(run, steps[..i + 1]), run[n],
          AppliedAll(t, EntryOf(run[i], steps[i]), run[n]), y)
  {
    hide StepOk, OutlineOk, Steady, There, Applied, NodeFollows, Journal, ContentFollows;
    var told, e := Journal(run, steps[..i]), EntryOf(run[i], steps[i]);
    JournalStep(run, steps, i + 1);
    assert y in t.kids ==> ContentFollows(run[0], told, run[n], t, y);
    if e == [] {
      assert told + e == told;
      ContentOutside(run[0], told, run[n], t, y);
    } else {
      ItemIsNew(run, steps, n, i, t, e[0]);
      ContentStep(run[0], told, e[0], run[n], t, y);
    }
  }

  lemma ContentOutside(first: Outline, told: seq<Entry>, last: Outline, t: Outline, y: ElementId)
    requires y in t.kids ==> ContentFollows(first, told, last, t, y)
    requires t.kids.Keys == t.text.Keys
    ensures ContentFollows(first, told, last, t, y)
  {
  }

  /** While nothing is moved, the replay is on documents where every id is an address, and mirrors the source. */
  lemma {:induction false} ReplicaMirrors(start: Target, run: seq<Outline>, steps: seq<Step>, n: nat, source: Target,
      i: nat)
    requires RunOk(run, steps) && i <= n <= |steps| && Plain(start, run[0]) && Plain(source, run[n])
    requires forall k :: 0 <= k < i ==> Steady(run, steps, n, k)
    ensures var t := Replica(start, run, steps, source, i); Plain(t, t.o) && Mirrors(run, steps, n, i, t.o)
  {
    hide StepOk, OutlineOk, Steady, There, Plain, Apply, Applied, Mirrors;
    if i == 0 {
      StartMirrors(run, steps, n);
      NothingReplayed(start, run, steps, source);
    } else {
      ReplicaMirrors(start, run, steps, n, source, i - 1);
      var t := Replica(start, run, steps, source, i - 1);
      assert Steady(run, steps, n, i - 1);
      ReplicaStep(start, run, steps, source, i);
      MirrorsMore(start, run, steps, n, source, i - 1, t);
    }
  }

  lemma NothingReplayed(start: Target, run: seq<Outline>, steps: seq<Step>, source: Target)
    requires |steps| < |run| && Plain(start, run[0])
    ensures Replica(start, run, steps, source, 0) == start && Plain(start, start.o) && start.o == run[0]
  {
    assert Journal(run, steps[..0]) == [];
  }

  lemma MirrorsMore(start: Target, run: seq<Outline>, steps: seq<Step>, n: nat, source: Target, i: nat, t: Target)
    requires RunOk(run, steps) && i < n <= |steps| && Plain(source, run[n]) && Steady(run, steps, n, i)
    requires Plain(t, t.o) && Mirrors(run, steps, n, i, t.o)
    ensures var e := EntryOf(run[i], steps[i]);
            var t' := if e == [] then t else Apply(t, e[0], source);
            Plain(t', t'.o) && Mirrors(run, steps, n, i + 1, t'.o)
  {
    hide StepOk, OutlineOk, Steady, There, Plain, Apply, Applied, Follows, ContentFollows, Journal;
    var e, there := EntryOf(run[i], steps[i]), There(run, steps, n, i);
    TargetKeys(run[i], there, t.o);
    StepMirrors(run, steps, n, i, t.o);
    forall y | y in AppliedAll(t.o, e, run[n]).kids
      ensures ContentFollows(run[0], Journal(run, steps[..i + 1]), run[n], AppliedAll(t.o, e, run[n]), y)
    {
      ContentsMirror(run, steps, n, i, t.o, y);
    }
    if e != [] {
      ItemIsNew(run, steps, n, i, t.o, e[0]);
      PlainApply(t, t.o, e[0], source, run[n]);
      PlainIs(Apply(t, e[0], source), Applied(t.o, e[0], run[n]));
    }
  }

  lemma PlainIs(t: Target, o: Outline)
    requires Plain(t, o)
    ensures t.o == o && Plain(t, t.o)
  {
  }

  // ----- what is rebuilt -----

  lemma MirrorElement(run: seq<Outline>, steps: seq<Step>, n: nat, t: Target, k: ElementId)
    requires RunOk(run, steps) && n <= |steps| && Plain(t, t.o) && Mirrors(run, steps, n, n, t.o) && k in t.o.kids
    requires AllThere(run, steps, n) && TextsTold(run, steps, n) && KindsTold(run, steps, n)
    ensures k in t.ids && Attached(run[0], run[n], t.ids[k]) && SameElement(t, k, run[n], t.ids[k])
  {
    hide StepOk, There, TextsTold, KindsTold, AllThere, OutlineOk, Attached, ContentFollows, Journal;
    var o, there := run[n], There(run, steps, n, n);
    RunKeeps(run, steps, n);
    TargetKeys(o, there, t.o);
    FollowsNode(o, there, t.o, k);
    AllKids(run, steps, n, k);
    FilterAll(o.kids[k], there);
    KindKnown(o, k);
    assert ContentFollows(run[0], Journal(run, steps[..n]), o, t.o, k);
    SameContent(run, steps, n, t.o, k);
    assert t.ids[k] == k && forall z :: z in t.o.kids[k] ==> z in t.ids && t.ids[z] == z;
  }

  lemma AllKids(run: seq<Outline>, steps: seq<Step>, n: nat, k: ElementId)
    requires RunOk(run, steps) && n <= |steps| && AllThere(run, steps, n) && k in There(run, steps, n, n)
    ensures Attached(run[0], run[n], k) && k in run[n].kids
          && forall z :: z in run[n].kids[k] ==> z in There(run, steps, n, n)
  {
    hide StepOk, There;
    RunKeeps(run, steps, n);
    forall z | z in run[n].kids[k]
      ensures z in There(run, steps, n, n)
    {
      assert HasFather(run[n], z, k);
      assert Attached(run[0], run[n], z);
    }
  }

  /** Kind and text of an element that is there are the source's, if told. */
  lemma SameContent(run: seq<Outline>, steps: seq<Step>, n: nat, t: Outline, k: ElementId)
    requires n <= |steps| < |run| && TextsTold(run, steps, n) && KindsTold(run, steps, n)
          && k in There(run, steps, n, n)
    requires k in t.kind && k in t.text && k in run[n].kids && k in run[n].kind && k in run[n].text
    requires ContentFollows(run[0], Journal(run, steps[..n]), run[n], t, k)
    ensures t.kind[k] == run[n].kind[k] && (Textual(run[n].kind[k]) ==> t.text[k] == run[n].text[k])
  {
    hide There, Journal;
    assert k in run[0].kids ==> TextTold(run, steps, n, k);
  }

  lemma MirrorIsRebuilt(run: seq<Outline>, steps: seq<Step>, n: nat, t: Target)
    requires RunOk(run, steps) && n <= |steps| && Plain(t, t.o) && Mirrors(run, steps, n, n, t.o)
    requires AllThere(run, steps, n) && TextsTold(run, steps, n) && KindsTold(run, steps, n)
    ensures Rebuilt(run[0], run[n], t)
  {
    hide StepOk, OutlineOk, TextsTold, KindsTold, ContentFollows, SameElement, NodeFollows, Attached;
    forall k | k in t.o.kids
      ensures k in t.ids && Attached(run[0], run[n], t.ids[k]) && SameElement(t, k, run[n], t.ids[k])
    {
      MirrorElement(run, steps, n, t, k);
    }
    forall y | Attached(run[0], run[n], y)
      ensures Carried(t, y)
    {
      assert y in t.o.kids && t.ids[y] == y;
    }
  }

  lemma RebuiltIsThere(run: seq<Outline>, steps: seq<Step>, n: nat, t: Target)
    requires RunOk(run, steps) && n <= |steps| && Plain(t, t.o) && Mirrors(run, steps, n, n, t.o)
          && Rebuilt(run[0], run[n], t)
    ensures AllThere(run, steps, n) && TextsTold(run, steps, n) && KindsTold(run, steps, n)
  {
    hide StepOk, OutlineOk, NodeFollows, Attached, TextTold, There;
    forall y | y in run[0].kids && y in run[n].kids
      ensures TextTold(run, steps, n, y)
    {
      TextIsTold(run, steps, n, t, y);
    }
    forall y | y in There(run, steps, n, n) && y !in run[0].kids && y in run[n].kind
      ensures MadeFrom(run[n].kind[y]) == run[n].kind[y]
    {
      KindIsTold(run, steps, n, t, y);
    }
    forall y
      ensures y in There(run, steps, n, n) <==> Attached(run[0], run[n], y)
    {
      if Attached(run[0], run[n], y) {
        assert Carried(t, y);
      }
    }
  }

  lemma TextIsTold(run: seq<Outline>, steps: seq<Step>, n: nat, t: Target, y: ElementId)
    requires RunOk(run, steps) && n <= |steps| && Plain(t, t.o) && Mirrors(run, steps, n, n, t.o)
          && Rebuilt(run[0], run[n], t)
    requires y in run[0].kids && y in run[n].kids
    ensures TextTold(run, steps, n, y)
  {
    hide StepOk, OutlineOk, NodeFollows, There, Attached;
    FirstThere(run, steps, n, n, y);
    assert y in t.o.kids && t.ids[y] == y;
    assert SameElement(t, y, run[n], y);
    assert ContentFollows(run[0], Journal(run, steps[..n]), run[n], t.o, y);
  }

  lemma KindIsTold(run: seq<Outline>, steps: seq<Step>, n: nat, t: Target, y: ElementId)
    requires RunOk(run, steps) && n <= |steps| && Plain(t, t.o) && Mirrors(run, steps, n, n, t.o)
          && Rebuilt(run[0], run[n], t)
    requires y in There(run, steps, n, n) && y !in run[0].kids && y in run[n].kind
    ensures MadeFrom(run[n].kind[y]) == run[n].kind[y]
  {
    hide StepOk, OutlineOk, NodeFollows, There, Attached, Journal;
    assert y in t.o.kids && t.ids[y] == y;
    assert SameElement(t, y, run[n], y);
    assert ContentFollows(run[0], Journal(run, steps[..n]), run[n], t.o, y);
  }

  /** If nothing that the target has is moved, replaying a journal on the state the source was forked from rebuilds the
      source's elements, child lists, kinds and texts if and only if the attached elements are there, and the texts and
      kinds told. */
  lemma ReplayRebuilds(start: Target, run: seq<Outline>, steps: seq<Step>, n: nat, source: Target)
    requires RunOk(run, steps) && n <= |steps| && Plain(start, run[0]) && Plain(source, run[n])
    ensures NoMove(run, steps, n) ==>
              (Rebuilt(run[0], run[n], Replica(start, run, steps, source, n)) <==>
                 AllThere(run, steps, n) && TextsTold(run, steps, n) && KindsTold(run, steps, n))
  {
    hide StepOk, OutlineOk, Steady, There, Plain, Mirrors, Rebuilt, AllThere, TextsTold, KindsTold, Replica;
    if NoMove(run, steps, n) {
      ReplicaMirrors(start, run, steps, n, source, n);
      var t := Replica(start, run, steps, source, n);
      if AllThere(run, steps, n) && TextsTold(run, steps, n) && KindsTold(run, steps, n) {
        MirrorIsRebuilt(run, steps, n, t);
      }
      if Rebuilt(run[0], run[n], t) {
        RebuiltIsThere(run, steps, n, t);
      }
    }
  }

  // ----- the usual discipline is enough -----

  /** Nothing is unlinked, elements of the fork are not inserted again, and elements are only inserted next to or into
      elements of the fork, or linked ones that are not removed later. */
  ghost predicate Tidy(run: seq<Outline>, steps: seq<Step>, n: nat)
    requires n <= |steps| < |run|
  {
    forall i :: 0 <= i < n ==> TidyStep(run, steps, n, i)
  }

  ghost predicate TidyStep(run: seq<Outline>, steps: seq<Step>, n: nat, i: nat)
    requires i < n <= |steps| < |run|
  {
    && !steps[i].Unlink?
    && (steps[i].Ins? ==>
          steps[i].x !in run[0].kids &&
          (steps[i].base in run[0].kids || (steps[i].base in run[n].kids && IsLinked(run[i], steps[i].base))))
  }

  /** What is there hangs in what is there, and what is linked and will stay is there. */
  ghost predicate Rooted(run: seq<Outline>, steps: seq<Step>, n: nat, i: nat)
    requires i <= n <= |steps| < |run|
  {
    && (forall y :: y in run[n].kids && IsLinked(run[i], y) ==> y in There(run, steps, n, i))
    && (forall y :: y in There(run, steps, n, i) ==> y in run[0].kids || IsLinked(run[i], y))
    && (forall y, f :: y in There(run, steps, n, i) && HasFather(run[i], y, f) ==> f in There(run, steps, n, i))
  }

  lemma StartRooted(run: seq<Outline>, steps: seq<Step>, n: nat)
    requires RunOk(run, steps) && n <= |steps|
    ensures Rooted(run, steps, n, 0)
  {
    hide StepOk;
  }

  lemma BaseIsThere(run: seq<Outline>, steps: seq<Step>, n: nat, i: nat, f: ElementId, k: nat)
    requires RunOk(run, steps) && i < n <= |steps| && TidyStep(run, steps, n, i) && Rooted(run, steps, n, i)
          && steps[i].Ins?
    requires PutInto(run[i], steps[i].mode, steps[i].base, steps[i].x, f, k, run[i + 1])
    ensures steps[i].base in There(run, steps, n, i) && f in There(run, steps, n, i)
          && steps[i].x !in There(run, steps, n, i)
  {
    hide StepOk, OutlineOk, IsLinked, There, Put;
    StepAt(run, steps, i);
    var g, l := InsIs(run[i], steps[i], run[i + 1]);
    if steps[i].base in run[0].kids {
      FirstThere(run, steps, n, i, steps[i].base);
    }
    if f != steps[i].base {
      assert HasFather(run[i], steps[i].base, f);
    }
  }

  lemma LinkedAfter(o: Outline, o': Outline, x: ElementId, f: ElementId)
    requires forall y, p :: HasFather(o', y, p) <==> HasFather(o, y, p) || (y == x && p == f)
    ensures forall y :: IsLinked(o', y) <==> IsLinked(o, y) || y == x
  {
    assert HasFather(o', x, f);
  }

  lemma Fatherless(o: Outline, x: ElementId)
    requires !IsLinked(o, x)
    ensures forall p :: !HasFather(o, x, p)
  {
  }

  lemma InsRooted(run: seq<Outline>, steps: seq<Step>, n: nat, i: nat)
    requires RunOk(run, steps) && i < n <= |steps| && TidyStep(run, steps, n, i) && Rooted(run, steps, n, i)
          && steps[i].Ins?
    ensures Rooted(run, steps, n, i + 1) && Steady(run, steps, n, i)
  {
    hide StepOk, OutlineOk, HasFather, PutInto, IsLinked, TidyStep;
    StepAt(run, steps, i);
    var f, k := InsIs(run[i], steps[i], run[i + 1]);
    BaseIsThere(run, steps, n, i, f, k);
    LinkedAfter(run[i], run[i + 1], steps[i].x, f);
    Fatherless(run[i], steps[i].x);
    var o, o', there, there' := run[i], run[i + 1], There(run, steps, n, i), There(run, steps, n, i + 1);
    assert there' == if Comes(run, steps, n, i) then there + {steps[i].x} else there;
    assert forall y, p :: y in there' && HasFather(o', y, p) ==> p in there';
    assert forall y :: y in run[n].kids && IsLinked(o', y) ==> y in there';
    assert forall y :: y in there' ==> y in run[0].kids || IsLinked(o', y);
  }

  /** Fathers are the same, except for an element that goes. */
  lemma OtherRooted(run: seq<Outline>, steps: seq<Step>, n: nat, i: nat)
    requires RunOk(run, steps) && i < n <= |steps| && TidyStep(run, steps, n, i) && Rooted(run, steps, n, i)
          && !steps[i].Ins?
    ensures Rooted(run, steps, n, i + 1) && Steady(run, steps, n, i)
  {
    hide StepOk, OutlineOk, HasFather, IsLinked;
    StepAt(run, steps, i);
    OtherFathers(run[i], steps[i], run[i + 1]);
    NotComing(run, steps, n, i);
    if steps[i].Rem? {
      StepAt(run, steps, i);
      GoneAtEnd(run, steps, n, i);
    }
  }

  /** An element that is removed does not come back. */
  lemma GoneAtEnd(run: seq<Outline>, steps: seq<Step>, n: nat, i: nat)
    requires RunOk(run, steps) && i < n <= |steps| && steps[i].Rem?
    ensures steps[i].x !in run[n].kids
  {
    hide OutlineOk, HasFather;
    StepAt(run, steps, i);
    StepStays(run[i], steps[i], run[i + 1], steps[i].x);
    var f, k := RemIs(run[i], steps[i].x, run[i + 1]);
    if steps[i].x in run[n].kids {
      Stays(run, steps, i, i + 1, n, steps[i].x);
    }
  }

  lemma OtherFathers(o: Outline, s: Step, o': Outline)
    requires OutlineOk(o) && StepOk(o, s, o') && !s.Ins? && !s.Unlink?
    ensures forall y, p :: HasFather(o', y, p) <==> HasFather(o, y, p) && !(s.Rem? && s.x == y)
    ensures forall y :: IsLinked(o', y) <==> IsLinked(o, y) && !(s.Rem? && s.x == y)
    ensures s.Rem? ==> forall y :: !HasFather(o, y, s.x)
  {
    match s
    case New(x, kind, text) =>
      assert forall y, p :: HasFather(o', y, p) <==> HasFather(o, y, p);
    case Rem(x) =>
      var f, n := RemIs(o, x, o');
      DropOk(o, f, n, x);
    case Txt(x, text) =>
      assert forall y, p :: HasFather(o', y, p) <==> HasFather(o, y, p);
  }

  lemma {:induction false} TidyIsRooted(run: seq<Outline>, steps: seq<Step>, n: nat, i: nat)
    requires RunOk(run, steps) && i <= n <= |steps| && Tidy(run, steps, n)
    ensures Rooted(run, steps, n, i) && forall k :: 0 <= k < i ==> Steady(run, steps, n, k)
  {
    hide StepOk, OutlineOk, Rooted, Steady, TidyStep;
    if i == 0 {
      StartRooted(run, steps, n);
    } else {
      TidyIsRooted(run, steps, n, i - 1);
      assert TidyStep(run, steps, n, i - 1);
      if steps[i - 1].Ins? {
        InsRooted(run, steps, n, i - 1);
      } else {
        OtherRooted(run, steps, n, i - 1);
      }
    }
  }

  /** A tidy run is rebuilt exactly if texts and kinds are told. */
  lemma TidyRunIsRebuilt(start: Target, run: seq<Outline>, steps: seq<Step>, n: nat, source: Target)
    requires RunOk(run, steps) && n <= |steps| && Plain(start, run[0]) && Plain(source, run[n]) && Tidy(run, steps, n)
    ensures NoMove(run, steps, n) && AllThere(run, steps, n)
    ensures Rebuilt(run[0], run[n], Replica(start, run, steps, source, n)) <==>
          TextsTold(run, steps, n) && KindsTold(run, steps, n)
  {
    hide StepOk, OutlineOk, Steady, There, Plain, Rebuilt, TextsTold, KindsTold, Replica, TidyStep;
    TidyIsRooted(run, steps, n, n);
    ThereIsHere(run, steps, n, n);
    forall y
      ensures y in There(run, steps, n, n) <==> Attached(run[0], run[n], y)
    {
      if y in run[0].kids && y in run[n].kids {
        FirstThere(run, steps, n, n, y);
      }
    }
    ReplayRebuilds(start, run, steps, n, source);
  }
}
