/** The grace period and the claim laws carried over to requests: what holds of the statements that a
    run of requests opens up into, read back as a statement about the requests. */
module RequestGrace {
  import opened Options
  import opened AccountTables
  import opened AccountRequests
  import opened RequestRuns
  import S = AccountRuns

  type Paths = seq<seq<S.Event>>

  // ---------------------------------------------------------------- where statements begin

  /** Where the statements of request i begin. */
  ghost function At(ps: Paths, i: nat): nat
    requires i <= |ps|
  {
    |Opened(ps, i)|
  }

  lemma {:induction false} OpenedGrows(ps: Paths, i: nat, n: nat)
    requires i <= n <= |ps|
    ensures Opened(ps, i) <= Opened(ps, n)
  {
    if i < n {
      OpenedGrows(ps, i, n - 1);
    }
  }

  lemma AtGrows(ps: Paths, i: nat, n: nat)
    requires i <= n <= |ps|
    ensures At(ps, i) <= At(ps, n)
  {
    OpenedGrows(ps, i, n);
  }

  /** The request that a statement belongs to. */
  lemma {:induction false} OwnerOf(ps: Paths, n: nat, e: nat) returns (i: nat)
    requires n <= |ps| && e < At(ps, n)
    ensures i < n && At(ps, i) <= e < At(ps, i) + |ps[i]|
    ensures Opened(ps, n)[e] == ps[i][e - At(ps, i)]
  {
    if e < At(ps, n - 1) {
      i := OwnerOf(ps, n - 1, e);
    } else {
      i := n - 1;
    }
  }

  /** The first statement of a request. */
  lemma FirstOf(ps: Paths, i: nat)
    requires i < |ps| && ps[i] != []
    ensures At(ps, i) < At(ps, i + 1) <= At(ps, |ps|) && Opened(ps, |ps|)[At(ps, i)] == ps[i][0]
  {
    OpenedGrows(ps, i + 1, |ps|);
    IndexInPrefix(Opened(ps, i), ps[i], Opened(ps, |ps|));
  }

  lemma IndexInPrefix(a: seq<S.Event>, b: seq<S.Event>, c: seq<S.Event>)
    requires a + b <= c && b != []
    ensures |a| < |a + b| <= |c| && c[|a|] == b[0]
  {
    assert c[|a|] == (a + b)[|a|];
  }

  // ---------------------------------------------------------------- requests of one statement

  /** Schedules, cancels and claims are requests of one statement, and a schedule reads the clock
      at that point. */
  ghost predicate Shaped(w: World, p: seq<S.Event>) {
    forall j :: 0 <= j < |p| && (p[j].ScheduleRow? || p[j].CancelRow? || p[j].ClaimRows?) ==>
      |p| == 1 && (p[j].ScheduleRow? ==> p[j].readAt == w.now)
  }

  /** Statements ps executed in worlds ws, as history h. */
  ghost predicate Execution(h: S.History, ws: seq<World>, ps: Paths) {
    && |ws| == |ps| + 1 && Executes(h, ws, ps, |ps|)
    && forall i :: 0 <= i < |ps| ==> Shaped(ws[i], ps[i])
  }

  ghost predicate SchedulesIn(ws: seq<World>, ps: Paths, i: nat, u: UserId) {
    i < |ps| && i < |ws| && ps[i] == [S.ScheduleRow(u, ws[i].now)] && u in ws[i].db.users
  }

  ghost predicate CancelsIn(ws: seq<World>, ps: Paths, i: nat, u: UserId) {
    i < |ps| && i < |ws| && ps[i] == [S.CancelRow(u)] && Cancellable(ws[i].db, u)
  }

  ghost predicate ClaimsIn(ps: Paths, i: nat, w: Worker, u: UserId) {
    i < |ps| && |ps[i]| == 1 && ps[i][0].ClaimRows? && ps[i][0].worker == w && u in ps[i][0].rows
  }

  lemma ScheduleDown(h: S.History, ws: seq<World>, ps: Paths, i: nat, u: UserId)
    requires Execution(h, ws, ps) && SchedulesIn(ws, ps, i, u)
    ensures S.Schedules(h, At(ps, i), u) && At(ps, i) < At(ps, i + 1)
  {
    PassesAt(h.ws, ws, ps, |ps|, i);
    FirstOf(ps, i);
  }

  lemma CancelDown(h: S.History, ws: seq<World>, ps: Paths, i: nat, u: UserId)
    requires Execution(h, ws, ps) && CancelsIn(ws, ps, i, u)
    ensures S.Cancels(h, At(ps, i), u) && At(ps, i) < At(ps, i + 1) && h.ws[At(ps, i)] == ws[i]
  {
    PassesAt(h.ws, ws, ps, |ps|, i);
    FirstOf(ps, i);
  }

  lemma ClaimDown(h: S.History, ws: seq<World>, ps: Paths, i: nat, w: Worker, u: UserId)
    requires Execution(h, ws, ps) && ClaimsIn(ps, i, w, u)
    ensures S.Claims(h, At(ps, i), u) && At(ps, i) < At(ps, i + 1)
  {
    PassesAt(h.ws, ws, ps, |ps|, i);
    FirstOf(ps, i);
  }

  lemma ScheduleUp(h: S.History, ws: seq<World>, ps: Paths, e: nat, u: UserId) returns (i: nat)
    requires Execution(h, ws, ps) && S.Schedules(h, e, u)
    ensures SchedulesIn(ws, ps, i, u) && e == At(ps, i) && h.es[e].readAt == ws[i].now
  {
    i := OwnerOf(ps, |ps|, e);
    PassesAt(h.ws, ws, ps, |ps|, i);
    assert Shaped(ws[i], ps[i]);
  }

  lemma ClaimUp(h: S.History, ws: seq<World>, ps: Paths, e: nat, u: UserId) returns (i: nat)
    requires Execution(h, ws, ps) && S.Claims(h, e, u)
    ensures ClaimsIn(ps, i, h.es[e].worker, u) && e == At(ps, i) && h.ws[e] == ws[i]
  {
    i := OwnerOf(ps, |ps|, e);
    PassesAt(h.ws, ws, ps, |ps|, i);
    assert Shaped(ws[i], ps[i]) && ps[i][e - At(ps, i)] == h.es[e];
    assert |ps[i]| == 1;
  }

  ghost predicate GraceIn(ws: seq<World>, ps: Paths, i: nat, j: nat, w: Worker, u: UserId) {
    && i < j < |ws| && SchedulesIn(ws, ps, i, u) && ClaimsIn(ps, j, w, u)
    && (forall m: nat :: i < m < j ==> !SchedulesIn(ws, ps, m, u) && !CancelsIn(ws, ps, m, u))
    && ws[i].now + 2_592_000_000_000 <= ws[j].now
  }

  lemma GraceUp(h: S.History, ws: seq<World>, ps: Paths, ei: nat, ej: nat, w: Worker, u: UserId)
    returns (i: nat, j: nat)
    requires Execution(h, ws, ps) && S.ClaimedAfterGrace(h, ei, ej, w, u)
    ensures GraceIn(ws, ps, i, j, w, u) && ei == At(ps, i) && ej == At(ps, j)
  {
    i := ScheduleUp(h, ws, ps, ei, u);
    j := ClaimUp(h, ws, ps, ej, u);
    InOrder(ps, i, j);
    forall m: nat | i < m < j ensures !SchedulesIn(ws, ps, m, u) && !CancelsIn(ws, ps, m, u) {
      NothingBetween(h, ws, ps, i, m, j, u);
    }
  }

  lemma Before(ps: Paths, i: nat, j: nat)
    requires i < j <= |ps| && ps[i] != []
    ensures At(ps, i) < At(ps, j)
  {
    FirstOf(ps, i);
    AtGrows(ps, i + 1, j);
  }

  lemma NothingBetween(h: S.History, ws: seq<World>, ps: Paths, i: nat, m: nat, j: nat, u: UserId)
    requires Execution(h, ws, ps) && i < m < j <= |ps| && ps[i] != []
    requires S.NoSchedule(h, u, At(ps, i), At(ps, j)) && S.NoCancel(h, u, At(ps, i), At(ps, j))
    ensures !SchedulesIn(ws, ps, m, u) && !CancelsIn(ws, ps, m, u)
  {
    if ps[m] != [] {
      Before(ps, i, m);
      Before(ps, m, j);
      assert !S.Schedules(h, At(ps, m), u) && !S.Cancels(h, At(ps, m), u);
      if SchedulesIn(ws, ps, m, u) {
        ScheduleDown(h, ws, ps, m, u);
      } else if CancelsIn(ws, ps, m, u) {
        CancelDown(h, ws, ps, m, u);
      }
    }
  }

  // ---------------------------------------------------------------- as requests

  ghost predicate Schedules(env: Env, w: World, r: Request, u: UserId) {
    r.Schedule? && Identify(env, w.db, r.username, r.password) == Some(u)
  }

  /** A cancel that removes u's row. */
  ghost predicate Cancels(env: Env, w: World, r: Request, u: UserId) {
    r.CancelPending? && Identify(env, w.db, r.username, r.password) == Some(u) && Cancellable(w.db, u)
  }

  ghost predicate Claims(r: Request, w: Worker, u: UserId) {
    r.ClaimBatch? && r.worker == w && u in r.rows
  }

  lemma PathShaped(env: Env, w: World, r: Request)
    ensures Shaped(w, Path(env, w, r))
  {
  }

  /** A request is a schedule, a cancel or a claim exactly when its statements are. */
  lemma PathKinds(env: Env, w: World, r: Request, p: Worker, u: UserId)
    ensures Schedules(env, w, r, u) <==> Path(env, w, r) == [S.ScheduleRow(u, w.now)] && u in w.db.users
    ensures Cancels(env, w, r, u) <==> Path(env, w, r) == [S.CancelRow(u)] && Cancellable(w.db, u)
    ensures var es := Path(env, w, r);
      Claims(r, p, u) <==> |es| == 1 && es[0].ClaimRows? && es[0].worker == p && u in es[0].rows
  {
  }

  /** A run and the statements it opens up into. */
  ghost predicate OpensInto(env: Env, t: Trace, ps: Paths, h: S.History) {
    && |t.ws| == |t.rs| + 1 && |ps| == |t.rs| && Execution(h, t.ws, ps)
    && forall i :: 0 <= i < |ps| ==> ps[i] == Path(env, t.ws[i], t.rs[i])
  }

  lemma Opens(env: Env, t: Trace) returns (ps: Paths, h: S.History)
    requires Run(env, t)
    ensures OpensInto(env, t, ps, h)
  {
    h := Refines(env, t);
    ps := RequestRuns.Paths(env, t);
    forall i | 0 <= i < |ps| ensures Shaped(t.ws[i], ps[i]) {
      PathShaped(env, t.ws[i], t.rs[i]);
    }
  }

  /** Request j claims u for worker w on the strength of request i: thirty days lie between them, and
      no request between them schedules u again or removes its row. */
  ghost predicate ClaimedAfterGrace(env: Env, t: Trace, i: nat, j: nat, w: Worker, u: UserId)
    requires |t.ws| == |t.rs| + 1
  {
    && i < j < |t.rs| && Schedules(env, t.ws[i], t.rs[i], u) && Claims(t.rs[j], w, u)
    && (forall m :: i < m < j ==> !Schedules(env, t.ws[m], t.rs[m], u) && !Cancels(env, t.ws[m], t.rs[m], u))
    && t.ws[i].now + 2_592_000_000_000 <= t.ws[j].now
  }

  lemma GraceAsRequests(env: Env, t: Trace, ps: Paths, h: S.History, i: nat, j: nat, w: Worker, u: UserId)
    requires OpensInto(env, t, ps, h) && GraceIn(t.ws, ps, i, j, w, u)
    ensures ClaimedAfterGrace(env, t, i, j, w, u)
  {
    PathKinds(env, t.ws[i], t.rs[i], w, u);
    PathKinds(env, t.ws[j], t.rs[j], w, u);
    forall m | i < m < j ensures !Schedules(env, t.ws[m], t.rs[m], u) && !Cancels(env, t.ws[m], t.rs[m], u) {
      PathKinds(env, t.ws[m], t.rs[m], w, u);
      assert !SchedulesIn(t.ws, ps, m, u) && !CancelsIn(t.ws, ps, m, u);
    }
  }

  // ---------------------------------------------------------------- the laws, over requests

  /** Request k takes u out of the table. */
  ghost predicate Removes(t: Trace, k: nat, u: UserId) {
    k < |t.rs| && k + 1 < |t.ws| && u in t.ws[k].db.users && u !in t.ws[k + 1].db.users
  }

  lemma RemovalIsItem(env: Env, t: Trace, k: nat, u: UserId)
    requires Run(env, t) && Removes(t, k, u)
    ensures t.rs[k].ProcessItem? && t.rs[k].user == u
    ensures Path(env, t.ws[k], t.rs[k]) != [] && Path(env, t.ws[k], t.rs[k])[0] == S.RemoveUser(t.rs[k].worker, u)
  {
    StepAt(env, t, k);
  }

  /** The statement with which a request removes a user. */
  lemma RemovalDown(h: S.History, ws: seq<World>, ps: Paths, k: nat, w: Worker, u: UserId)
    requires Execution(h, ws, ps) && k < |ps| && u in ws[k].db.users
    requires ps[k] != [] && ps[k][0] == S.RemoveUser(w, u)
    ensures var e := At(ps, k);
      && e < |h.es| && u in h.ws[e].db.users && u !in h.ws[e + 1].db.users && h.es[e] == S.RemoveUser(w, u)
  {
    PassesAt(h.ws, ws, ps, |ps|, k);
    FirstOf(ps, k);
    assert S.Step(h.ws[At(ps, k)], h.es[At(ps, k)], h.ws[At(ps, k) + 1]);
  }

  /** Grace period over requests: a user disappears only when a worker processes it, and that worker
      claimed it at least thirty days after a schedule request of the same user, with no schedule and
      no effective cancel of it in between. */
  lemma GracePeriod(env: Env, t: Trace, k: nat, u: UserId) returns (i: nat, j: nat)
    requires Run(env, t) && Removes(t, k, u)
    ensures t.rs[k].ProcessItem? && t.rs[k].user == u
    ensures j < k && ClaimedAfterGrace(env, t, i, j, t.rs[k].worker, u)
  {
    RemovalIsItem(env, t, k, u);
    var ps, h := Opens(env, t);
    i, j := GraceOf(h, t.ws, ps, k, t.rs[k].worker, u);
    GraceAsRequests(env, t, ps, h, i, j, t.rs[k].worker, u);
  }

  lemma GraceOf(h: S.History, ws: seq<World>, ps: Paths, k: nat, w: Worker, u: UserId) returns (i: nat, j: nat)
    requires Execution(h, ws, ps) && k < |ps| && u in ws[k].db.users
    requires ps[k] != [] && ps[k][0] == S.RemoveUser(w, u)
    ensures j < k && GraceIn(ws, ps, i, j, w, u)
  {
    RemovalDown(h, ws, ps, k, w, u);
    var ei, ej := S.GracePeriod(h, At(ps, k), u);
    i, j := GraceUp(h, ws, ps, ei, ej, w, u);
    InOrder(ps, j, k);
  }

  /** Two claims of one user, by whatever workers, have a schedule request of it between them. */
  lemma ClaimOnce(env: Env, t: Trace, j: nat, j': nat, w: Worker, w': Worker, u: UserId) returns (m: nat)
    requires Run(env, t) && j < j' < |t.rs| && Claims(t.rs[j], w, u) && Claims(t.rs[j'], w', u)
    ensures j < m < j' && Schedules(env, t.ws[m], t.rs[m], u)
  {
    var ps, h := Opens(env, t);
    PathKinds(env, t.ws[j], t.rs[j], w, u);
    PathKinds(env, t.ws[j'], t.rs[j'], w', u);
    m := ScheduleBetween(h, t.ws, ps, j, j', w, w', u);
    PathKinds(env, t.ws[m], t.rs[m], w, u);
  }

  lemma ScheduleBetween(h: S.History, ws: seq<World>, ps: Paths, j: nat, j': nat, w: Worker, w': Worker, u: UserId)
    returns (m: nat)
    requires Execution(h, ws, ps) && j < j' && ClaimsIn(ps, j, w, u) && ClaimsIn(ps, j', w', u)
    ensures j < m < j' && SchedulesIn(ws, ps, m, u)
  {
    ClaimDown(h, ws, ps, j, w, u);
    ClaimDown(h, ws, ps, j', w', u);
    AtGrows(ps, j + 1, j');
    S.ClaimOnce(h, At(ps, j), At(ps, j'), u);
    var e: nat :| At(ps, j) < e < At(ps, j') && S.Schedules(h, e, u);
    m := ScheduleUp(h, ws, ps, e, u);
    InOrder(ps, j, m);
    InOrder(ps, m, j');
  }

  /** If nobody held u at an effective cancel, a later deletion of u rests on a schedule request after
      that cancel which was thirty days old when it was claimed. */
  lemma DeletionAfterCancel(env: Env, t: Trace, c: nat, k: nat, u: UserId) returns (i: nat, j: nat)
    requires c < k < |t.rs| < |t.ws| && Cancels(env, t.ws[c], t.rs[c], u) && !S.SomeoneHolds(t.ws[c], u)
    requires Run(env, t) && Removes(t, k, u)
    ensures t.rs[k].ProcessItem? && t.rs[k].user == u
    ensures c < i < j < k && ClaimedAfterGrace(env, t, i, j, t.rs[k].worker, u)
  {
    RemovalIsItem(env, t, k, u);
    var ps, h := Opens(env, t);
    PathKinds(env, t.ws[c], t.rs[c], t.rs[k].worker, u);
    i, j := GraceAfterCancel(h, t.ws, ps, c, k, t.rs[k].worker, u);
    GraceAsRequests(env, t, ps, h, i, j, t.rs[k].worker, u);
  }

  lemma GraceAfterCancel(h: S.History, ws: seq<World>, ps: Paths, c: nat, k: nat, w: Worker, u: UserId)
    returns (i: nat, j: nat)
    requires Execution(h, ws, ps) && c < k < |ps| && u in ws[k].db.users
    requires ps[k] != [] && ps[k][0] == S.RemoveUser(w, u)
    requires CancelsIn(ws, ps, c, u) && !S.SomeoneHolds(ws[c], u)
    ensures c < i && j < k && GraceIn(ws, ps, i, j, w, u)
  {
    Before(ps, c, k);
    RemovalDown(h, ws, ps, k, w, u);
    i, j := GraceAfter(h, ws, ps, c, At(ps, k), w, u);
    InOrder(ps, j, k);
  }

  lemma GraceAfter(h: S.History, ws: seq<World>, ps: Paths, c: nat, e: nat, w: Worker, u: UserId)
    returns (i: nat, j: nat)
    requires Execution(h, ws, ps) && CancelsIn(ws, ps, c, u) && !S.SomeoneHolds(ws[c], u)
    requires At(ps, c) < e < |h.es| && h.es[e] == S.RemoveUser(w, u)
    requires u in h.ws[e].db.users && u !in h.ws[e + 1].db.users
    ensures c < i && GraceIn(ws, ps, i, j, w, u) && At(ps, j) < e
  {
    CancelDown(h, ws, ps, c, u);
    var ei, ej := S.DeletionAfterCancel(h, At(ps, c), e, u);
    i, j := GraceUp(h, ws, ps, ei, ej, w, u);
    InOrder(ps, c, i);
  }

  lemma InOrder(ps: Paths, i: nat, j: nat)
    requires i <= |ps| && j <= |ps| && At(ps, i) < At(ps, j)
    ensures i < j
  {
    if j <= i {
      AtGrows(ps, j, i);
    }
  }
}
