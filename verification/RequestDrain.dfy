/** Batch drain in the middle of traffic: any number of deletion workers and any other requests, as
    long as no worker fails and nothing becomes newly due. */
module RequestDrain {
  import opened Options
  import opened Numbers
  import opened Usernames
  import opened AccountTables
  import opened AccountRequests
  import opened RequestRuns
  import opened RequestGrace
  import L = RequestLaws
  import S = AccountRuns
  import R = StartedRows

  ghost function DueIn(w: World): set<UserId> {
    Due(w.db, w.now)
  }

  ghost predicate NothingNewlyDue(t: Trace, a: nat, b: nat)
    requires b < |t.ws|
  {
    forall i {:trigger t.ws[i]} :: a <= i < b ==> DueIn(t.ws[i + 1]) <= DueIn(t.ws[i])
  }

  ghost predicate NoFailures(t: Trace, a: nat, b: nat)
    requires b <= |t.rs|
  {
    forall i :: a <= i < b ==> !t.rs[i].FailItem?
  }

  /** Claims made by requests a, ..., b - 1, by whatever workers. */
  function Rounds(t: Trace, a: nat, b: nat): nat
    requires a <= b <= |t.rs|
  {
    if a == b then 0 else Rounds(t, a, b - 1) + if t.rs[b - 1].ClaimBatch? then 1 else 0
  }

  /** Some request from a up to b - 1 claims u. */
  ghost predicate Claimed(t: Trace, a: nat, b: nat, u: UserId)
    requires b <= |t.rs|
  {
    exists i :: a <= i < b && t.rs[i].ClaimBatch? && u in t.rs[i].rows
  }

  /** Some request from a up to b - 1 schedules u again, or cancels its deletion, while it is due. */
  ghost predicate Withdrawn(env: Env, t: Trace, a: nat, b: nat, u: UserId)
    requires b <= |t.rs| < |t.ws|
  {
    exists i :: a <= i < b && u in DueIn(t.ws[i])
      && (Schedules(env, t.ws[i], t.rs[i], u) || Cancels(env, t.ws[i], t.rs[i], u))
  }

  // ---------------------------------------------------------------- what one request does

  lemma ClaimShrinks(env: Env, w: World, r: Request)
    requires Enabled(w, r) && r.ClaimBatch?
    ensures DueIn(Serve(env, w, r).0) == DueIn(w) - r.rows && r.rows <= DueIn(w)
    ensures |DueIn(w) - r.rows| == |DueIn(w)| - Min(50, |DueIn(w)|)
  {
    assert |DueIn(w) - r.rows| == |DueIn(w)| - |r.rows|;
  }

  /** A row stops being due because it is claimed, withdrawn, or deleted with its user. */
  lemma LeavesDue(env: Env, w: World, r: Request, u: UserId)
    requires u in DueIn(w) && u !in DueIn(Serve(env, w, r).0)
    ensures (r.ClaimBatch? && u in r.rows) || (r.ProcessItem? && r.user == u)
            || Schedules(env, w, r, u) || Cancels(env, w, r, u)
  {
  }

  lemma ServeHeld(env: Env, w: World, r: Request, p: (Worker, UserId))
    ensures var w' := Serve(env, w, r).0;
      && (p in w'.held ==> p in w.held || (r.ClaimBatch? && r.worker == p.0 && p.1 in r.rows))
      && (r.ClaimBatch? && r.worker == p.0 && p.1 in r.rows ==> p in w'.held)
      && (p in w.held && p !in w'.held ==> r == ProcessItem(p.0, p.1) || r == FailItem(p.0, p.1))
  {
  }

  lemma ItemRemoves(env: Env, w: World, r: Request)
    requires S.Sound(w) && Enabled(w, r) && r.ProcessItem?
    ensures r.user in Serve(env, w, r).0.usedIds && r.user !in Serve(env, w, r).0.db.users
  {
  }

  // ---------------------------------------------------------------- when a user is due

  /** The request takes u's row out of waiting: it cancels it, claims it, or works on a claim of u. */
  ghost predicate TakesUp(env: Env, w: World, r: Request, u: UserId) {
    Cancels(env, w, r, u) || (r.ClaimBatch? && u in r.rows) || (r.ProcessItem? && r.user == u)
  }

  /** Request m neither schedules u nor takes up its row. */
  ghost predicate Leaves(env: Env, t: Trace, m: nat, u: UserId)
    requires m < |t.rs| < |t.ws|
  {
    !Schedules(env, t.ws[m], t.rs[m], u) && !TakesUp(env, t.ws[m], t.rs[m], u)
  }

  /** u was scheduled at i, and up to n nothing has scheduled it again or taken up the row. */
  ghost predicate WaitsSince(env: Env, t: Trace, i: nat, n: nat, u: UserId)
    requires i < n <= |t.rs| < |t.ws|
  {
    Schedules(env, t.ws[i], t.rs[i], u) && forall m :: i < m < n ==> Leaves(env, t, m, u)
  }

  /** The unstarted row of u, if there is one. */
  ghost function Waiting(w: World, u: UserId): Option<PendingRow> {
    if Cancellable(w.db, u) then Some(w.db.pending[u]) else None
  }

  lemma ScheduleWaits(env: Env, w: World, r: Request, u: UserId)
    requires Schedules(env, w, r, u)
    ensures Waiting(Serve(env, w, r).0, u) == Some(PendingRow(w.now, w.now + 2_592_000_000_000, None))
  {
  }

  lemma ServeWaiting(env: Env, w: World, r: Request, u: UserId)
    requires S.Sound(w) && Enabled(w, r) && !Schedules(env, w, r, u)
    ensures Waiting(Serve(env, w, r).0, u) == if TakesUp(env, w, r, u) then None else Waiting(w, u)
  {
    if r.Schedule? || r.CancelPending? {
      DeletionWaiting(env, w, r, u);
    } else if !r.ClaimBatch? && !r.ProcessItem? {
      OthersLeave(env, w, r);
    }
  }

  lemma OthersLeave(env: Env, w: World, r: Request)
    requires !r.Schedule? && !r.CancelPending? && !r.ClaimBatch? && !r.ProcessItem?
    ensures Serve(env, w, r).0.db.pending == w.db.pending
  {
  }

  lemma DeletionWaiting(env: Env, w: World, r: Request, u: UserId)
    requires (r.Schedule? || r.CancelPending?) && !Schedules(env, w, r, u)
    ensures Waiting(Serve(env, w, r).0, u) == if Cancels(env, w, r, u) then None else Waiting(w, u)
  {
  }

  /** What request k does to u's unstarted row. */
  ghost predicate Follows(env: Env, t: Trace, k: nat, u: UserId)
    requires k < |t.rs| < |t.ws|
  {
    Waiting(t.ws[k + 1], u) ==
      if Schedules(env, t.ws[k], t.rs[k], u) then Some(PendingRow(t.ws[k].now, t.ws[k].now + 2_592_000_000_000, None))
      else if TakesUp(env, t.ws[k], t.rs[k], u) then None else Waiting(t.ws[k], u)
  }

  lemma WaitingStep(env: Env, t: Trace, k: nat, u: UserId)
    requires k < |t.rs| < |t.ws| && Run(env, t)
    ensures Follows(env, t, k, u)
  {
    RunSound(env, t, k);
    StepAt(env, t, k);
    if Schedules(env, t.ws[k], t.rs[k], u) {
      ScheduleWaits(env, t.ws[k], t.rs[k], u);
    } else {
      ServeWaiting(env, t.ws[k], t.rs[k], u);
    }
  }

  lemma WaitsOn(env: Env, t: Trace, i: nat, k: nat, u: UserId)
    requires i < k < |t.rs| < |t.ws|
    ensures WaitsSince(env, t, i, k + 1, u) <==> WaitsSince(env, t, i, k, u) && Leaves(env, t, k, u)
  {
    if WaitsSince(env, t, i, k, u) && Leaves(env, t, k, u) {
      assert forall m :: i < m < k + 1 ==> Leaves(env, t, m, u);
    }
  }

  /** While u waits, its row is the one that the schedule wrote. */
  lemma {:induction false} WaitsWithRow(env: Env, t: Trace, i: nat, n: nat, u: UserId)
    requires i < n <= |t.rs| < |t.ws| && WaitsSince(env, t, i, n, u) && Run(env, t)
    ensures Waiting(t.ws[n], u) == Some(PendingRow(t.ws[i].now, t.ws[i].now + 2_592_000_000_000, None))
  {
    WaitingStep(env, t, n - 1, u);
    if i < n - 1 {
      WaitsOn(env, t, i, n - 1, u);
      WaitsWithRow(env, t, i, n - 1, u);
      assert Leaves(env, t, n - 1, u);
    }
  }

  lemma NobodyWaitsFirst(env: Env, t: Trace, u: UserId)
    requires |t.ws| > 0 && Run(env, t)
    ensures Waiting(t.ws[0], u).None?
  {
    Begins(env, t);
  }

  /** An unstarted row is there because its user waits. */
  lemma {:induction false} RowWaits(env: Env, t: Trace, n: nat, u: UserId) returns (i: nat)
    requires n <= |t.rs| < |t.ws| && Waiting(t.ws[n], u).Some? && Waiting(t.ws[0], u).None?
    requires forall k: nat :: k < n ==> Follows(env, t, k, u)
    ensures i < n && WaitsSince(env, t, i, n, u)
  {
    assert Follows(env, t, n - 1, u);
    if Schedules(env, t.ws[n - 1], t.rs[n - 1], u) {
      i := n - 1;
    } else {
      i := RowWaits(env, t, n - 1, u);
      WaitsOn(env, t, i, n - 1, u);
    }
  }

  /** A user is due, so that a worker may claim it, exactly when it was scheduled, at least thirty days have
      passed on the clock since, and it was neither scheduled again nor cancelled nor claimed. */
  lemma DueIff(env: Env, t: Trace, n: nat, u: UserId)
    requires n <= |t.rs| < |t.ws| && Run(env, t)
    ensures u in DueIn(t.ws[n]) <==>
      exists i :: 0 <= i < n && WaitsSince(env, t, i, n, u) && t.ws[i].now + 2_592_000_000_000 <= t.ws[n].now
  {
    if i :| 0 <= i < n && WaitsSince(env, t, i, n, u) && t.ws[i].now + 2_592_000_000_000 <= t.ws[n].now {
      WaitsWithRow(env, t, i, n, u);
    } else if u in DueIn(t.ws[n]) {
      NobodyWaitsFirst(env, t, u);
      forall k: nat | k < n ensures Follows(env, t, k, u) { WaitingStep(env, t, k, u); }
      var i := RowWaits(env, t, n, u);
      WaitsWithRow(env, t, i, n, u);
    }
  }

  // ---------------------------------------------------------------- over a stretch of a run

  lemma StepDue(env: Env, t: Trace, k: nat)
    requires Run(env, t) && k < |t.rs| && DueIn(t.ws[k + 1]) <= DueIn(t.ws[k])
    ensures |DueIn(t.ws[k + 1])| <= |DueIn(t.ws[k])|
    ensures t.rs[k].ClaimBatch? ==>
      |DueIn(t.ws[k + 1])| == |DueIn(t.ws[k])| - Min(50, |DueIn(t.ws[k])|)
  {
    StepAt(env, t, k);
    L.Smaller(DueIn(t.ws[k + 1]), DueIn(t.ws[k]));
    if t.rs[k].ClaimBatch? {
      ClaimShrinks(env, t.ws[k], t.rs[k]);
    }
  }

  lemma CountDown(start: nat, due: nat, due': nat, rounds: nat, claim: bool)
    requires due == 0 || due + 50 * rounds <= start
    requires due' <= due && (claim ==> due' == due - Min(50, due))
    ensures due' == 0 || due' + 50 * (rounds + if claim then 1 else 0) <= start
  {
  }

  /** Each claim takes fifty of the due rows, or all of them. */
  lemma {:induction false} DueAfter(env: Env, t: Trace, a: nat, b: nat)
    requires Run(env, t) && a <= b <= |t.rs| && NothingNewlyDue(t, a, b)
    ensures DueIn(t.ws[b]) <= DueIn(t.ws[a])
    ensures |DueIn(t.ws[b])| == 0 || |DueIn(t.ws[b])| + 50 * Rounds(t, a, b) <= |DueIn(t.ws[a])|
  {
    if a < b {
      DueAfter(env, t, a, b - 1);
      assert DueIn(t.ws[b - 1 + 1]) <= DueIn(t.ws[b - 1]);
      StepDue(env, t, b - 1);
      CountDown(|DueIn(t.ws[a])|, |DueIn(t.ws[b - 1])|, |DueIn(t.ws[b])|, Rounds(t, a, b - 1), t.rs[b - 1].ClaimBatch?);
    }
  }

  lemma {:induction false} HeldWasClaimed(env: Env, t: Trace, a: nat, b: nat, p: (Worker, UserId))
    requires Run(env, t) && a <= b <= |t.rs| && t.ws[a].held == {} && p in t.ws[b].held
    ensures Claimed(t, a, b, p.1)
  {
    StepAt(env, t, b - 1);
    ServeHeld(env, t.ws[b - 1], t.rs[b - 1], p);
    if p in t.ws[b - 1].held {
      HeldWasClaimed(env, t, a, b - 1, p);
    }
  }

  /** A claim that is no longer held was worked off, and its user is gone. */
  lemma {:induction false} HeldIsWorkedOff(env: Env, t: Trace, m: nat, b: nat, p: (Worker, UserId))
    requires Run(env, t) && m <= b <= |t.rs| && NoFailures(t, m, b) && p in t.ws[m].held && p !in t.ws[b].held
    ensures p.1 !in t.ws[b].db.users
    decreases b - m
  {
    StepAt(env, t, m);
    if p in t.ws[m + 1].held {
      HeldIsWorkedOff(env, t, m + 1, b, p);
    } else {
      ServeHeld(env, t.ws[m], t.rs[m], p);
      RunSound(env, t, m);
      ItemRemoves(env, t.ws[m], t.rs[m]);
      GoneForever(env, t, m + 1, b, p.1);
    }
  }

  lemma ClaimedIsHeld(env: Env, t: Trace, i: nat, u: UserId)
    requires Run(env, t) && i < |t.rs| && t.rs[i].ClaimBatch? && u in t.rs[i].rows
    ensures (t.rs[i].worker, u) in t.ws[i + 1].held
  {
    StepAt(env, t, i);
    ServeHeld(env, t.ws[i], t.rs[i], (t.rs[i].worker, u));
  }

  lemma ClaimedIsGone(env: Env, t: Trace, a: nat, b: nat, u: UserId)
    requires Run(env, t) && a <= b <= |t.rs| && NoFailures(t, a, b) && t.ws[b].held == {} && Claimed(t, a, b, u)
    ensures u !in t.ws[b].db.users
  {
    var i :| a <= i < b && t.rs[i].ClaimBatch? && u in t.rs[i].rows;
    ClaimedIsHeld(env, t, i, u);
    HeldIsWorkedOff(env, t, i + 1, b, (t.rs[i].worker, u));
  }

  lemma {:induction false} GoneWasClaimed(env: Env, t: Trace, a: nat, b: nat, u: UserId)
    requires Run(env, t) && a <= b <= |t.rs| && t.ws[a].held == {}
    requires u in t.ws[a].db.users && u !in t.ws[b].db.users
    ensures Claimed(t, a, b, u)
  {
    if u in t.ws[b - 1].db.users {
      StepAt(env, t, b - 1);
      RemovalIsItem(env, t, b - 1, u);
      HeldWasClaimed(env, t, a, b - 1, (t.rs[b - 1].worker, u));
    } else {
      GoneWasClaimed(env, t, a, b - 1, u);
    }
  }

  lemma ClaimedWasDue(env: Env, t: Trace, a: nat, b: nat, u: UserId)
    requires Run(env, t) && a <= b <= |t.rs| && NothingNewlyDue(t, a, b) && Claimed(t, a, b, u)
    ensures u in DueIn(t.ws[a])
  {
    var i :| a <= i < b && t.rs[i].ClaimBatch? && u in t.rs[i].rows;
    StepAt(env, t, i);
    ClaimShrinks(env, t.ws[i], t.rs[i]);
    DueAfter(env, t, a, i);
  }

  lemma {:induction false} NoLongerDue(env: Env, t: Trace, a: nat, b: nat, u: UserId)
    requires Run(env, t) && a <= b <= |t.rs| && t.ws[a].held == {}
    requires u in DueIn(t.ws[a]) && u !in DueIn(t.ws[b])
    ensures Claimed(t, a, b, u) || Withdrawn(env, t, a, b, u)
  {
    if u !in DueIn(t.ws[b - 1]) {
      NoLongerDue(env, t, a, b - 1, u);
    } else {
      StepAt(env, t, b - 1);
      LeavesDue(env, t.ws[b - 1], t.rs[b - 1], u);
      if t.rs[b - 1].ProcessItem? && t.rs[b - 1].user == u {
        HeldWasClaimed(env, t, a, b - 1, (t.rs[b - 1].worker, u));
      }
    }
  }

  /** Drain in traffic. Over a stretch of a run that begins and ends with no claim outstanding, with
      no failing worker and nothing newly due, ceil(k / 50) claims are enough for the k users due at
      the start: none is due at the end, the users removed are exactly those claimed, all of them
      were due at the start, and whoever was due and not claimed was rescheduled or cancelled. */
  lemma DrainInTraffic(env: Env, t: Trace, a: nat, b: nat)
    requires Run(env, t) && a <= b <= |t.rs| && t.ws[a].held == {} && t.ws[b].held == {}
    requires NoFailures(t, a, b) && NothingNewlyDue(t, a, b)
    requires 50 * Rounds(t, a, b) >= |DueIn(t.ws[a])|
    ensures DueIn(t.ws[b]) == {}
    ensures forall u :: u in t.ws[a].db.users ==> (u !in t.ws[b].db.users <==> Claimed(t, a, b, u))
    ensures forall u :: u in t.ws[a].db.users && u !in t.ws[b].db.users ==> u in DueIn(t.ws[a])
    ensures forall u :: u in DueIn(t.ws[a]) ==> u !in t.ws[b].db.users || Withdrawn(env, t, a, b, u)
  {
    DueAfter(env, t, a, b);
    assert DueIn(t.ws[b]) == {};
    forall u | u in t.ws[a].db.users
      ensures u !in t.ws[b].db.users <==> Claimed(t, a, b, u)
      ensures u !in t.ws[b].db.users ==> u in DueIn(t.ws[a])
    {
      Fate(env, t, a, b, u);
    }
    forall u | u in DueIn(t.ws[a]) ensures u !in t.ws[b].db.users || Withdrawn(env, t, a, b, u) {
      NoLongerDue(env, t, a, b, u);
      if Claimed(t, a, b, u) {
        ClaimedIsGone(env, t, a, b, u);
      }
    }
  }

  lemma Fate(env: Env, t: Trace, a: nat, b: nat, u: UserId)
    requires Run(env, t) && a <= b <= |t.rs| && t.ws[a].held == {} && t.ws[b].held == {}
    requires NoFailures(t, a, b) && NothingNewlyDue(t, a, b) && u in t.ws[a].db.users
    ensures u !in t.ws[b].db.users <==> Claimed(t, a, b, u)
    ensures u !in t.ws[b].db.users ==> u in DueIn(t.ws[a])
  {
    if Claimed(t, a, b, u) {
      ClaimedIsGone(env, t, a, b, u);
      ClaimedWasDue(env, t, a, b, u);
    } else if u !in t.ws[b].db.users {
      GoneWasClaimed(env, t, a, b, u);
    }
  }

  ghost predicate NobodyWithdraws(env: Env, t: Trace, a: nat, b: nat)
    requires a <= b <= |t.rs| < |t.ws|
  {
    forall u :: u in DueIn(t.ws[a]) ==> !Withdrawn(env, t, a, b, u)
  }

  /** If moreover nobody due is rescheduled or cancelled, exactly the users due at the start are gone.
      Whoever is gone left no token and no pending row, and the cache keeps the remaining names only. */
  lemma DrainsExactly(env: Env, t: Trace, a: nat, b: nat)
    requires Run(env, t) && a <= b <= |t.rs| && t.ws[a].held == {} && t.ws[b].held == {}
    requires NoFailures(t, a, b) && NothingNewlyDue(t, a, b)
    requires 50 * Rounds(t, a, b) >= |DueIn(t.ws[a])|
    ensures NobodyWithdraws(env, t, a, b) ==>
      forall u :: u in t.ws[a].db.users ==> (u !in t.ws[b].db.users <==> u in DueIn(t.ws[a]))
    ensures forall u :: u !in t.ws[b].db.users ==>
      u !in t.ws[b].db.pending && forall k :: k in t.ws[b].db.tokens ==> t.ws[b].db.tokens[k].user != u
    ensures Lowering(env.lower) ==> t.ws[b].cache.Keys == NamesOf(t.ws[b].db, t.ws[b].db.users.Keys)
  {
    DrainInTraffic(env, t, a, b);
    RunSound(env, t, b);
    if Lowering(env.lower) {
      L.CacheMatchesTable(env, t, b);
    }
    assert t.ws[b].db.pending.Keys <= t.ws[b].db.users.Keys && TokensSound(t.ws[b].db);
  }

  // ---------------------------------------------------------------- when a worker fails

  lemma ServeStuck(env: Env, w: World, r: Request, u: UserId)
    requires S.Sound(w) && Enabled(w, r) && R.Started(w, u) && !S.SomeoneHolds(w, u) && !Schedules(env, w, r, u)
    ensures var w' := Serve(env, w, r).0;
      && u in w'.db.pending && w'.db.pending[u] == w.db.pending[u] && !S.SomeoneHolds(w', u)
  {
    assert forall p :: p in w.held ==> p.1 != u;
    var w' := Serve(env, w, r).0;
    forall p | p in w'.held ensures p.1 != u { ServeHeld(env, w, r, p); }
  }

  lemma StepStuck(env: Env, t: Trace, k: nat, u: UserId)
    requires k < |t.rs| < |t.ws| && !Schedules(env, t.ws[k], t.rs[k], u) && Run(env, t)
    ensures StaysStuck(t.ws[k], t.ws[k + 1], u)
  {
    RunSound(env, t, k);
    StepAt(env, t, k);
    if R.Started(t.ws[k], u) && !S.SomeoneHolds(t.ws[k], u) {
      ServeStuck(env, t.ws[k], t.rs[k], u);
    }
  }

  /** If u's row is started and nobody holds it, the row is the same afterwards and still nobody does. */
  ghost predicate StaysStuck(w: World, w': World, u: UserId) {
    R.Started(w, u) && !S.SomeoneHolds(w, u) ==>
      u in w'.db.pending && w'.db.pending[u] == w.db.pending[u] && !S.SomeoneHolds(w', u)
  }

  ghost predicate StuckStep(ws: seq<World>, k: nat, u: UserId) {
    k + 1 < |ws| && StaysStuck(ws[k], ws[k + 1], u)
  }

  lemma {:induction false} RowStuck(ws: seq<World>, m: nat, n: nat, u: UserId)
    requires m <= n < |ws| && R.Started(ws[m], u) && !S.SomeoneHolds(ws[m], u)
    requires forall k: nat :: m <= k < n ==> StuckStep(ws, k, u)
    ensures u in ws[n].db.pending && ws[n].db.pending[u] == ws[m].db.pending[u] && !S.SomeoneHolds(ws[n], u)
  {
    if m < n {
      RowStuck(ws, m, n - 1, u);
      assert StuckStep(ws, n - 1, u);
    }
  }

  /** Why NoFailures is needed: once the claim of a started row is lost, the user and the row stay through
      any requests until the user is scheduled again. */
  lemma StuckUntilScheduled(env: Env, t: Trace, m: nat, n: nat, u: UserId)
    requires m <= n <= |t.rs| < |t.ws| && Run(env, t)
    requires forall k :: m <= k < n ==> !Schedules(env, t.ws[k], t.rs[k], u)
    requires R.Started(t.ws[m], u) && !S.SomeoneHolds(t.ws[m], u)
    ensures u in t.ws[n].db.users && !S.SomeoneHolds(t.ws[n], u)
    ensures u in t.ws[n].db.pending && t.ws[n].db.pending[u] == t.ws[m].db.pending[u]
  {
    forall k: nat | m <= k < n ensures StuckStep(t.ws, k, u) { StepStuck(env, t, k, u); }
    RowStuck(t.ws, m, n, u);
    RunSound(env, t, n);
  }
}
