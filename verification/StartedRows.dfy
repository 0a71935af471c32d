/** Pending rows whose deletion was started and then failed. */
module StartedRows {
  import opened Options
  import opened AccountTables
  import opened AccountRuns

  ghost predicate Started(w: World, u: UserId) {
    u in w.db.pending && w.db.pending[u].startedAt.Some?
  }

  lemma StepStarted(w: World, e: Event, u: UserId)
    requires Sound(w) && Enabled(w, e) && Started(w, u) && !SomeoneHolds(w, u)
    requires !(e.ScheduleRow? && e.user == u)
    ensures u in Apply(w, e).db.pending && Apply(w, e).db.pending[u] == w.db.pending[u]
  {
    assert forall p :: p in w.held ==> p.1 != u;
  }

  lemma StepUnheld(w: World, e: Event, u: UserId)
    requires Enabled(w, e) && Started(w, u) && !SomeoneHolds(w, u)
    ensures !SomeoneHolds(Apply(w, e), u)
  {
    forall p | p in Apply(w, e).held ensures p.1 != u { StepHeld(w, e, p); }
  }

  /** A started row that no worker holds stays as it is, and with it its user, until the user is scheduled
      again: nobody claims it, no cancel removes it, nobody deletes the user. */
  lemma {:induction false} StuckUntilScheduled(h: History, m: nat, n: nat, u: UserId)
    requires Run(h) && m <= n <= |h.es| && Started(h.ws[m], u) && !SomeoneHolds(h.ws[m], u)
    requires forall k: nat :: m <= k < n ==> !Schedules(h, k, u)
    ensures u in h.ws[n].db.users && !SomeoneHolds(h.ws[n], u)
    ensures u in h.ws[n].db.pending && h.ws[n].db.pending[u] == h.ws[m].db.pending[u]
  {
    RunSound(h, n);
    if m < n {
      StuckUntilScheduled(h, m, n - 1, u);
      RunSound(h, n - 1);
      assert Step(h.ws[n - 1], h.es[n - 1], h.ws[n]) && !Schedules(h, n - 1, u);
      StepStarted(h.ws[n - 1], h.es[n - 1], u);
      StepUnheld(h.ws[n - 1], h.es[n - 1], u);
    }
  }

  /** A due user is not always deleted in the end. Once its row is started, it can still be deleted
      without being scheduled again if and only if some worker holds it. */
  lemma StartedDeletableIff(h: History, u: UserId)
    requires Run(h) && Started(h.ws[|h.es|], u)
    ensures Deletable(h, u) <==> SomeoneHolds(h.ws[|h.es|], u)
  {
    var n := |h.es|;
    RunSound(h, n);
    if SomeoneHolds(h.ws[n], u) {
      HeldIsDeletable(h, u);
    } else if Deletable(h, u) {
      var g :| DeletesUnscheduled(h, g, u);
      assert g.ws[n] == h.ws[n];
      StuckUntilScheduled(g, n, |g.es|, u);
    }
  }

  /** The claiming worker's delete fails: the row stays started, and without a new schedule no
      continuation ever deletes the user. */
  lemma FailedDeleteIsStuck() returns (h: History)
    ensures Run(h) && |h.es| == 5 && Claims(h, 3, 0) && h.es[4] == LoseItem(7, 0)
    ensures 0 in h.ws[5].db.users && Started(h.ws[5], 0) && !Deletable(h, 0)
  {
    h := ClaimedExample();
    h := Extend(h, LoseItem(7, 0));
    assert h.ws[5].held == {};
    StartedDeletableIff(h, 0);
  }
}
