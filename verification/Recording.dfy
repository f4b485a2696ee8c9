/** A document's history since its fork: the states, the edits between them, and the journal they leave. */
module Recording {
  import opened DomTree
  import opened DomViews
  import opened JournalTheorem
  import opened Outlines
  import opened Replay

  /** The journal item of an edit names its elements by their ids. */
  ghost function EntryIn(t: Target, s: Step): seq<Entry> {
    match s
    case New(_, _, _) => []
    case Ins(mode, b, x) => if b in t.ids && x in t.ids then [InsertItem(mode, t.ids[b], t.ids[x])] else []
    case Rem(x) => if x in t.ids then [RemoveItem(t.ids[x])] else []
    case Unlink(_) => []
    case Txt(x, _) => if IsLinked(t.o, x) && x in t.ids then [TextItem(t.ids[x])] else []
  }

  /** What an edit does to ids and index. */
  ghost predicate StepIds(was: Target, s: Step, now: Target) {
    match s
    case New(x, _, _) => now.ids == was.ids[x := x] && now.index == was.index + [x]
    case Rem(x) => now.ids == was.ids - {x} && now.index == Minus(was.index, {x})
    case _ => now.ids == was.ids && now.index == was.index
  }

  /** The id was never used since the fork. */
  ghost predicate Unused(run: seq<Outline>, x: ElementId) {
    forall i :: 0 <= i < |run| ==> x !in run[i].kids
  }

  /** The edits lead from the fork to the present, and the journal is theirs. */
  ghost predicate RecordOk(run: seq<Outline>, steps: seq<Step>, entries: seq<Entry>, t: Target) {
    RunOk(run, steps) && run[|steps|] == t.o && Plain(t, t.o) && entries == Journal(run, steps)
  }

  lemma StepPlain(was: Target, s: Step, now: Target)
    requires OutlineOk(was.o) && Plain(was, was.o) && StepOk(was.o, s, now.o) && StepIds(was, s, now)
    ensures Plain(now, now.o) && EntryIn(was, s) == EntryOf(was.o, s)
  {
    hide StepOk, OutlineOk, StepIds, EntryIn, EntryOf;
    PlainKeys(was.o, s, now.o);
    SameEntry(was, s);
    PlainIds(was, s, now);
    forall k
      ensures k in now.index <==> k in now.o.kids
    {
      PlainIndex(was, s, now, k);
    }
  }

  /** While every id is an address, the items name the elements alike. */
  lemma SameEntry(t: Target, s: Step)
    requires Plain(t, t.o)
    requires (s.Ins? ==> s.base in t.o.kids && s.x in t.o.kids) && (s.Txt? || s.Rem? ==> s.x in t.o.kids)
    ensures EntryIn(t, s) == EntryOf(t.o, s)
  {
    hide IsLinked;
  }

  lemma PlainIds(was: Target, s: Step, now: Target)
    requires Plain(was, was.o) && StepIds(was, s, now)
    requires now.o.kids.Keys == if s.New? then was.o.kids.Keys + {s.x} else if s.Rem? then was.o.kids.Keys - {s.x}
          else was.o.kids.Keys
    ensures now.ids.Keys == now.o.kids.Keys && forall k :: k in now.ids ==> now.ids[k] == k
  {
    hide Minus;
  }

  lemma PlainIndex(was: Target, s: Step, now: Target, k: ElementId)
    requires Plain(was, was.o) && StepIds(was, s, now)
    requires now.o.kids.Keys == if s.New? then was.o.kids.Keys + {s.x} else if s.Rem? then was.o.kids.Keys - {s.x}
          else was.o.kids.Keys
    ensures k in now.index <==> k in now.o.kids
  {
    hide Minus;
    if s.New? {
      assert k in was.index + [s.x] <==> k in was.index || k == s.x;
    }
    if s.Rem? {
      MinusItems(was.index, {s.x}, k);
    }
  }

  lemma PlainKeys(o: Outline, s: Step, o': Outline)
    requires OutlineOk(o) && StepOk(o, s, o')
    ensures o'.kind.Keys == o'.kids.Keys && o'.text.Keys == o'.kids.Keys && 0 !in o'.kids
    ensures o'.kids.Keys == if s.New? then o.kids.Keys + {s.x} else if s.Rem? then o.kids.Keys - {s.x} else o.kids.Keys
    ensures s.Ins? ==> s.base in o.kids && s.x in o.kids
    ensures s.Txt? || s.Rem? ==> s.x in o.kids
  {
    hide IsLinked;
    match s
    case New(_, _, _) =>
    case Ins(mode, b, x) =>
      var f, n: nat :| PutInto(o, mode, b, x, f, n, o');
    case Rem(x) =>
      var f, n := RemIs(o, x, o');
    case Unlink(x) =>
      var f, n: nat :| UnlinkedFrom(o, x, f, n, o');
    case Txt(_, _) =>
  }

  /** A fork has no history yet. */
  lemma ForkRecorded(t: Target)
    requires OutlineOk(t.o)
    ensures Plain(t, t.o) ==> RecordOk([t.o], [], [], t)
  {
  }

  /** One more edit. */
  lemma RecordMore(run: seq<Outline>, steps: seq<Step>, entries: seq<Entry>, was: Target, s: Step, now: Target)
    requires RecordOk(run, steps, entries, was) && StepOk(was.o, s, now.o) && StepIds(was, s, now)
          && (s.New? ==> Unused(run, s.x))
    ensures RecordOk(run + [now.o], steps + [s], entries + EntryIn(was, s), now)
  {
    hide StepOk, OutlineOk, EntryOf, EntryIn, Plain, StepIds;
    RunKeeps(run, steps, |steps|);
    StepPlain(was, s, now);
    OneMore(run, steps, s, now.o);
    var run', steps' := run + [now.o], steps + [s];
    forall i, k | 0 <= k <= i < |steps'| && steps'[i].New?
      ensures steps'[i].x !in run'[k].kids
    {
      assert run'[k] == run[k];
    }
  }
}
