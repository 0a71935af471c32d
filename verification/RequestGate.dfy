/** The pending gate over whole runs: from a schedule to the cancel or the deletion of the user, no
    token is handed out for it and nothing behind the auth middleware happens for its sessions. */
module RequestGate {
  import opened Options
  import opened AccountTables
  import opened AccountRequests
  import opened RequestRuns
  import opened RequestGrace
  import L = RequestLaws
  import M = MiddlewareChain

  /** Request k is a guarded request of a session of u, and each middleware before the gate calls
      Next at most once. */
  ghost predicate GuardedFor(t: Trace, k: nat, u: UserId) {
    && k < |t.rs| && t.rs[k].GuardedRequest? && t.rs[k].session == Some(u)
    && forall i :: 0 <= i < |t.rs[k].before| ==> t.rs[k].before[i] <= 1
  }

  /** Nothing behind the gate was entered. */
  ghost predicate HeldBack(t: Trace, k: nat) {
    && k < |t.rs| && k < |t.outs| && t.rs[k].GuardedRequest? && t.outs[k].Handled?
    && !M.GoesPast(t.outs[k].log, |t.rs[k].before|)
  }

  /** While u's row exists, a guarded request of u gets no further than the gate, whatever the
      middlewares after it would do. */
  lemma GateHolds(env: Env, t: Trace, k: nat, u: UserId)
    requires Run(env, t) && GuardedFor(t, k, u) && u in t.ws[k].db.pending
    ensures HeldBack(t, k)
  {
    StepAt(env, t, k);
    var r := t.rs[k];
    var calls := r.before + [0] + r.after;
    assert calls[|r.before|] == 0 && forall i :: 0 <= i < |r.before| ==> calls[i] == r.before[i];
    M.RefusalHolds(calls, |r.before|);
  }

  /** A request without an authenticated session gets no further than the gate either. */
  lemma GateNeedsSession(env: Env, t: Trace, k: nat)
    requires Run(env, t) && k < |t.rs| && t.rs[k].GuardedRequest? && t.rs[k].session.None?
    requires forall i :: 0 <= i < |t.rs[k].before| ==> t.rs[k].before[i] <= 1
    ensures HeldBack(t, k)
  {
    StepAt(env, t, k);
    var r := t.rs[k];
    var calls := r.before + [0] + r.after;
    assert calls[|r.before|] == 0 && forall i :: 0 <= i < |r.before| ==> calls[i] == r.before[i];
    M.RefusalHolds(calls, |r.before|);
  }

  /** Without the row, and with every other middleware calling Next once, the endpoint runs once. */
  lemma GateOpens(env: Env, t: Trace, k: nat, u: UserId)
    requires Run(env, t) && GuardedFor(t, k, u) && u !in t.ws[k].db.pending
    requires forall i :: 0 <= i < |t.rs[k].before| ==> t.rs[k].before[i] == 1
    requires forall i :: 0 <= i < |t.rs[k].after| ==> t.rs[k].after[i] == 1
    ensures t.outs[k] == Handled(M.Positions(|t.rs[k].before| + 1 + |t.rs[k].after|) + [M.Endpoint])
  {
    StepAt(env, t, k);
    OnceEach(t.rs[k].before + [1] + t.rs[k].after);
  }

  lemma OnceEach(calls: seq<nat>)
    requires forall i :: 0 <= i < |calls| ==> calls[i] == 1
    ensures M.LogOf(calls) == M.Positions(|calls|) + [M.Endpoint]
  {
    M.AtMostOnce(calls, |calls|);
  }

  // ---------------------------------------------------------------- the whole pending period

  lemma ServeKeepsPending(env: Env, w: World, r: Request, u: UserId)
    requires u in w.db.pending && !Cancels(env, w, r, u) && !(r.ProcessItem? && r.user == u)
    ensures u in Serve(env, w, r).0.db.pending
  {
  }

  lemma ScheduleMakesPending(env: Env, w: World, r: Request, u: UserId)
    requires Schedules(env, w, r, u)
    ensures u in Serve(env, w, r).0.db.pending
  {
  }

  /** No request from i + 1 up to k - 1 cancels u effectively or processes it. */
  ghost predicate StaysScheduled(env: Env, t: Trace, i: nat, k: nat, u: UserId)
    requires k <= |t.rs| < |t.ws|
  {
    forall m :: i < m < k ==> !Cancels(env, t.ws[m], t.rs[m], u) && !(t.rs[m].ProcessItem? && t.rs[m].user == u)
  }

  lemma {:induction false} PendingSince(env: Env, t: Trace, i: nat, k: nat, u: UserId)
    requires Run(env, t) && i < k <= |t.rs| && Schedules(env, t.ws[i], t.rs[i], u)
    requires StaysScheduled(env, t, i, k, u)
    ensures u in t.ws[k].db.pending
  {
    StepAt(env, t, k - 1);
    if i == k - 1 {
      ScheduleMakesPending(env, t.ws[i], t.rs[i], u);
    } else {
      PendingSince(env, t, i, k - 1, u);
      ServeKeepsPending(env, t.ws[k - 1], t.rs[k - 1], u);
    }
  }

  /** From a schedule request of u on, until a request cancels it effectively or processes u: no
      request hands out a token for u, and no guarded request of u gets past the gate. */
  lemma NothingWhileScheduled(env: Env, t: Trace, i: nat, k: nat, u: UserId)
    requires Run(env, t) && i < k < |t.rs| && Schedules(env, t.ws[i], t.rs[i], u)
    requires StaysScheduled(env, t, i, k, u)
    ensures t.outs[k].Ok? ==> t.outs[k].result.user != u
    ensures GuardedFor(t, k, u) ==> HeldBack(t, k)
  {
    PendingSince(env, t, i, k, u);
    L.NotForPending(env, t, k, u);
    if GuardedFor(t, k, u) {
      GateHolds(env, t, k, u);
    }
  }
}
