/** A fork of the same state, and the journal of another fork applied to it: the two become alike. */
module Replication {
  import opened Applying
  import opened Dom
  import opened DomTree
  import opened JournalTheorem
  import opened Outlines
  import opened Replay
  import opened ReplayApplies

  /** A second fork of a parent takes over what was done in a first one, if that was recorded since the same state. */
  method Replicate(parent: Document, source: Document) returns (replica: Document, ok: bool)
    requires parent.Valid() && source.Valid() && source.Recorded() && source.run[0] == parent.View()
          && Plain(parent.State(), parent.View())
    ensures fresh(replica)
    ensures var (run, steps, n) := (source.run, source.steps, |source.steps|);
            && (NoMove(run, steps, n) ==> (ok <==> forall i :: 0 <= i < n ==> Fits(run, steps, n, i)))
            && (NoMove(run, steps, n) && ok ==>
                  replica.Valid() && (Rebuilt(parent.View(), source.View(), replica.State()) <==>
                                        AllThere(run, steps, n) && TextsTold(run, steps, n)
                                            && KindsTold(run, steps, n)))
            && (Tidy(run, steps, n) && KindsTold(run, steps, n) ==>
                  ok && (Rebuilt(parent.View(), source.View(), replica.State()) <==> TextsTold(run, steps, n)))
  {
    hide TreeOk, JournalOk, EntriesFrom, Plain, Applies, Replayed, Rebuilt, StepOk, OutlineOk, IndexOk;
    hide NoMove, AllThere, TextsTold, KindsTold, Tidy, Fits;
    replica := new Document.Fork(parent);
    ghost var start, run, steps, n := replica.State(), source.run, source.steps, |source.steps|;
    ok := replica.ApplyJournal(source);
    assert steps[..n] == steps;
    ReplayGoes(start, run, steps, n, source.State());
    ReplayRebuilds(start, run, steps, n, source.State());
    if Tidy(run, steps, n) && KindsTold(run, steps, n) {
      FaithfulReplay(start, run, steps, n, source.State());
    }
  }
}
