/** Statement level: every SQL statement and Redis command of every request and of every
    deletion worker is one step, and steps of different requests and workers interleave freely.
    Requests in flight may act on anything they read earlier, so a statement may carry any
    arguments; only the facts named in `Enabled` restrict it. */
module AccountRuns {
  import opened Options
  import opened AccountTables

  type Worker = nat

  datatype World = World(
    now: Time,
    db: Tables,
    cache: map<string, UserId>,
    held: set<(Worker, UserId)>,    // claimed items a worker has not reached yet
    absent: set<(Worker, UserId)>,  // items whose user row was already gone
    usedIds: set<UserId>,           // ids drawn so far by gen_random_uuid
    usedHashes: set<Hash>)          // hashes of the tokens drawn so far

  const START := World(0, EMPTY, map[], {}, {}, {}, {})

  datatype Event =
    | Tick(d: nat)
    | NewUser(id: UserId, account: User)
    | WriteToken(user: UserId, device: string, deviceName: string, hash: Hash)
    | Rotate(row: TokenId, hash: Hash)
    | ScheduleRow(user: UserId, readAt: Time)  // readAt: the clock value delete_at was computed from
    | CancelRow(user: UserId)
    | ClaimRows(worker: Worker, rows: set<UserId>)
    | RemoveUser(worker: Worker, user: UserId)
    | LoseItem(worker: Worker, user: UserId)   // the DELETE failed, or the worker died
    | ClearRow(worker: Worker, user: UserId)   // after ErrUserNotFound
    | CacheStep(cache: map<string, UserId>)    // any Redis command, successful or not

  ghost predicate Enabled(w: World, e: Event) {
    match e
    case NewUser(id, _) => id !in w.usedIds
    case WriteToken(_, _, _, hash) => hash !in w.usedHashes
    case Rotate(_, hash) => hash !in w.usedHashes
    case ScheduleRow(_, readAt) => readAt <= w.now
    case ClaimRows(worker, rows) =>
      && rows <= Due(w.db, w.now) && |rows| <= BATCH
      && forall u :: (worker, u) !in w.held
    case RemoveUser(worker, user) => (worker, user) in w.held
    case LoseItem(worker, user) => (worker, user) in w.held
    case ClearRow(worker, user) => (worker, user) in w.absent
    case _ => true
  }

  ghost function Apply(w: World, e: Event): World {
    match e
    case Tick(d) => w.(now := w.now + d)
    case NewUser(id, account) => w.(db := InsertUser(w.db, id, account), usedIds := w.usedIds + {id})
    case WriteToken(user, device, name, hash) =>
      w.(db := UpsertToken(w.db, user, device, name, hash), usedHashes := w.usedHashes + {hash})
    case Rotate(row, hash) => w.(db := RotateToken(w.db, row, hash), usedHashes := w.usedHashes + {hash})
    case ScheduleRow(user, readAt) => w.(db := Schedule(w.db, user, readAt + DELAY, w.now))
    case CancelRow(user) => w.(db := Cancel(w.db, user))
    case ClaimRows(worker, rows) =>
      w.(db := Claim(w.db, rows, w.now), held := w.held + set u | u in rows :: (worker, u))
    case RemoveUser(worker, user) =>
      w.(db := DeleteUser(w.db, user), held := w.held - {(worker, user)},
         absent := if user in w.db.users then w.absent else w.absent + {(worker, user)})
    case LoseItem(worker, user) => w.(held := w.held - {(worker, user)})
    case ClearRow(worker, user) =>
      w.(db := DeletePending(w.db, user), absent := w.absent - {(worker, user)})
    case CacheStep(cache) => w.(cache := cache)
  }

  /** A history: the worlds passed through and the events between them. */
  datatype History = History(ws: seq<World>, es: seq<Event>)

  ghost predicate Step(w: World, e: Event, w': World) {
    Enabled(w, e) && w' == Apply(w, e)
  }

  ghost predicate Run(h: History) {
    && |h.ws| == |h.es| + 1
    && h.ws[0] == START
    && forall k {:trigger h.es[k]} :: 0 <= k < |h.es| ==> Step(h.ws[k], h.es[k], h.ws[k + 1])
  }

  // ---------------------------------------------------------------- invariants of every run

  ghost predicate Sound(w: World) {
    && Consistent(w.db)
    && w.db.users.Keys <= w.usedIds
    && (forall k :: k in w.db.tokens ==> w.db.tokens[k].hash in w.usedHashes)
    && (forall p :: p in w.held ==> p.1 in w.usedIds)
    && (forall p :: p in w.absent ==> p.1 in w.usedIds && p.1 !in w.db.users)
  }

  lemma StepConsistent(w: World, e: Event)
    requires Consistent(w.db)
    ensures Consistent(Apply(w, e).db)
  {
    match e
    case NewUser(id, account) => UserStatementsConsistent(w.db, id, account);
    case WriteToken(user, device, name, hash) => UpsertTokenConsistent(w.db, user, device, name, hash);
    case Rotate(row, hash) => RotateTokenConsistent(w.db, row, hash);
    case ScheduleRow(user, readAt) => PendingStatementsConsistent(w.db, user, readAt + DELAY, w.now);
    case CancelRow(user) => PendingStatementsConsistent(w.db, user, 0, w.now);
    case ClaimRows(_, rows) => ClaimConsistent(w.db, rows, w.now);
    case RemoveUser(_, user) => UserStatementsConsistent(w.db, user, User("", "", ""));
    case ClearRow(_, user) => PendingStatementsConsistent(w.db, user, 0, w.now);
    case _ =>
  }

  /** Only RemoveUser takes a user row away, and a used id never returns. */
  lemma StepUsers(w: World, e: Event, u: UserId)
    requires Enabled(w, e)
    ensures var w' := Apply(w, e);
      && (u in w.db.users && u !in w'.db.users ==> e.RemoveUser? && e.user == u)
      && (u !in w.db.users && u in w'.db.users ==> u !in w.usedIds && u in w'.usedIds)
      && (u in w.usedIds ==> u in w'.usedIds)
  {
  }

  /** The ways one step can touch u's pending row. */
  lemma StepPending(w: World, e: Event, u: UserId)
    ensures var w' := Apply(w, e);
      u in w'.db.pending ==>
        || (e.ScheduleRow? && e.user == u && u in w.db.users &&
            w'.db.pending[u] == PendingRow(w.now, e.readAt + DELAY, None))
        || (u in w.db.pending && (e == CancelRow(u) ==> !Cancellable(w.db, u)) &&
            w'.db.pending[u] == if e.ClaimRows? && u in e.rows then w.db.pending[u].(startedAt := Some(w.now))
                                else w.db.pending[u])
  {
  }

  lemma StepHeld(w: World, e: Event, p: (Worker, UserId))
    ensures p in Apply(w, e).held ==>
      p in w.held || (e.ClaimRows? && e.worker == p.0 && p.1 in e.rows)
  {
  }

  lemma StepTokens(w: World, e: Event, k: TokenId)
    requires Consistent(w.db) && k in Apply(w, e).db.tokens
    ensures var row := Apply(w, e).db.tokens[k];
      || (k in w.db.tokens && row == w.db.tokens[k])
      || (e.WriteToken? && row.device == e.device && row.user == e.user && row.hash == e.hash)
      || (e.Rotate? && k == e.row && k in w.db.tokens && row == w.db.tokens[k].(hash := e.hash))
  {
    if e.WriteToken? && TokenAdmitted(w.db, e.user, e.device, e.hash) {
      UpsertTokenRows(w.db, e.user, e.device, e.deviceName, e.hash, k);
    }
  }

  lemma StepSound(w: World, e: Event)
    requires Sound(w) && Enabled(w, e)
    ensures Sound(Apply(w, e))
  {
    var w' := Apply(w, e);
    StepConsistent(w, e);
    forall k | k in w'.db.tokens ensures w'.db.tokens[k].hash in w'.usedHashes { StepTokens(w, e, k); }
    forall u: UserId ensures u in w'.db.users ==> u in w'.usedIds { StepUsers(w, e, u); }
    forall p | p in w'.held ensures p.1 in w'.usedIds { StepHeld(w, e, p); StepUsers(w, e, p.1); }
    forall p | p in w'.absent ensures p.1 in w'.usedIds && p.1 !in w'.db.users { StepUsers(w, e, p.1); }
  }

  /** In every run, at every point: usernames, devices and hashes are unique, and tokens and
      pending rows belong to existing users, whatever the cache holds. */
  lemma {:induction false} RunSound(h: History, n: nat)
    requires Run(h) && n <= |h.es|
    ensures Sound(h.ws[n])
  {
    if n > 0 {
      RunSound(h, n - 1);
      assert Step(h.ws[n - 1], h.es[n - 1], h.ws[n]);
      StepSound(h.ws[n - 1], h.es[n - 1]);
    }
  }

  lemma {:induction false} ClockAdvances(h: History, i: nat, j: nat)
    requires Run(h) && i <= j <= |h.es|
    ensures h.ws[i].now <= h.ws[j].now
  {
    if i < j {
      ClockAdvances(h, i, j - 1);
      assert Step(h.ws[j - 1], h.es[j - 1], h.ws[j]);
    }
  }

  /** A user removed from the table never comes back. */
  lemma {:induction false} GoneForever(h: History, m: nat, n: nat, u: UserId)
    requires Run(h) && m <= n <= |h.es|
    requires u in h.ws[m].usedIds && u !in h.ws[m].db.users
    ensures u in h.ws[n].usedIds && u !in h.ws[n].db.users
  {
    if m < n {
      GoneForever(h, m, n - 1, u);
      assert Step(h.ws[n - 1], h.es[n - 1], h.ws[n]);
      StepUsers(h.ws[n - 1], h.es[n - 1], u);
    }
  }

  /** The clean-up statement issued after ErrUserNotFound never finds a row. */
  lemma ClearRowIsNoOp(h: History, k: nat)
    requires Run(h) && k < |h.es| && h.es[k].ClearRow?
    ensures h.ws[k + 1].db == h.ws[k].db
  {
    RunSound(h, k);
    assert Step(h.ws[k], h.es[k], h.ws[k + 1]);
  }

  // ---------------------------------------------------------------- grace period

  /** Event i schedules u: the upsert found the user. */
  ghost predicate Schedules(h: History, i: nat, u: UserId)
    requires |h.ws| == |h.es| + 1
  {
    i < |h.es| && h.es[i].ScheduleRow? && h.es[i].user == u && u in h.ws[i].db.users
  }

  /** Event i is a cancel that removes u's row. */
  ghost predicate Cancels(h: History, i: nat, u: UserId)
    requires |h.ws| == |h.es| + 1
  {
    i < |h.es| && h.es[i] == CancelRow(u) && Cancellable(h.ws[i].db, u)
  }

  ghost predicate Claims(h: History, j: nat, u: UserId) {
    j < |h.es| && h.es[j].ClaimRows? && u in h.es[j].rows
  }

  ghost predicate NoSchedule(h: History, u: UserId, i: nat, n: nat)
    requires |h.ws| == |h.es| + 1
  {
    forall m: nat :: i < m < n ==> !Schedules(h, m, u)
  }

  ghost predicate NoCancel(h: History, u: UserId, i: nat, n: nat)
    requires |h.ws| == |h.es| + 1
  {
    forall m: nat :: i < m < n ==> !Cancels(h, m, u)
  }

  /** A pending row comes from the last schedule of its user, and no cancel removed a row since. */
  lemma {:induction false} OriginOf(h: History, n: nat, u: UserId) returns (i: nat)
    requires Run(h) && n <= |h.es| && u in h.ws[n].db.pending
    ensures i < n && Schedules(h, i, u) && NoSchedule(h, u, i, n) && NoCancel(h, u, i, n)
    ensures h.es[i].readAt <= h.ws[i].now == h.ws[n].db.pending[u].scheduledAt
    ensures h.ws[n].db.pending[u].deleteAt == h.es[i].readAt + 2_592_000_000_000
  {
    var w, e := h.ws[n - 1], h.es[n - 1];
    assert Step(w, e, h.ws[n]);
    StepPending(w, e, u);
    if Schedules(h, n - 1, u) {
      i := n - 1;
    } else {
      i := OriginOf(h, n - 1, u);
    }
  }

  /** Worker w claimed u at event j, on the strength of the schedule at event i: thirty days, in
      microseconds, had passed since that request read the clock, and it was neither replaced nor cancelled. */
  ghost predicate ClaimedAfterGrace(h: History, i: nat, j: nat, w: Worker, u: UserId)
    requires |h.ws| == |h.es| + 1
  {
    && i < j && Schedules(h, i, u) && Claims(h, j, u) && h.es[j].worker == w
    && NoSchedule(h, u, i, j) && NoCancel(h, u, i, j)
    && h.es[i].readAt + 2_592_000_000_000 <= h.ws[j].now
  }

  ghost predicate HoldsThrough(h: History, w: Worker, u: UserId, j: nat, n: nat)
    requires |h.ws| == |h.es| + 1 && n <= |h.es|
  {
    forall m: nat :: j < m <= n ==> (w, u) in h.ws[m].held
  }

  lemma {:induction false} ClaimOf(h: History, n: nat, w: Worker, u: UserId) returns (i: nat, j: nat)
    requires Run(h) && n <= |h.es| && (w, u) in h.ws[n].held
    ensures j < n && ClaimedAfterGrace(h, i, j, w, u) && HoldsThrough(h, w, u, j, n)
  {
    assert Step(h.ws[n - 1], h.es[n - 1], h.ws[n]);
    StepHeld(h.ws[n - 1], h.es[n - 1], (w, u));
    if (w, u) in h.ws[n - 1].held {
      i, j := ClaimOf(h, n - 1, w, u);
    } else {
      i := OriginOf(h, n - 1, u);
      j := n - 1;
    }
  }

  /** Grace period. A user row disappears only when a worker that has held a claim on it ever
      since event j removes it, and that claim was made at least thirty days after a schedule of
      the same user with no reschedule and no effective cancel in between. */
  lemma GracePeriod(h: History, k: nat, u: UserId) returns (i: nat, j: nat)
    requires Run(h) && k < |h.es|
    requires u in h.ws[k].db.users && u !in h.ws[k + 1].db.users
    ensures h.es[k].RemoveUser? && h.es[k].user == u
    ensures j < k && ClaimedAfterGrace(h, i, j, h.es[k].worker, u)
    ensures HoldsThrough(h, h.es[k].worker, u, j, k)
    ensures h.ws[i].now <= h.ws[j].now <= h.ws[k].now
  {
    assert Step(h.ws[k], h.es[k], h.ws[k + 1]);
    StepUsers(h.ws[k], h.es[k], u);
    i, j := ClaimOf(h, k, h.es[k].worker, u);
    ClockAdvances(h, i, j);
    ClockAdvances(h, j, k);
  }

  /** The thirty days run from the request's reading of the clock, not from scheduled_at: the
      row is safe for thirty days after it is written exactly when the reading was not stale. */
  lemma GraceFromRowIff(w: World, u: UserId, readAt: Time)
    requires u in w.db.users && readAt <= w.now
    ensures var w' := Apply(w, ScheduleRow(u, readAt));
      (forall d: nat :: u in Due(Apply(w', Tick(d)).db, Apply(w', Tick(d)).now) ==> d >= 2_592_000_000_000)
      <==> readAt == w.now
  {
    var w' := Apply(w, ScheduleRow(u, readAt));
    if readAt < w.now {
      var d: nat := if readAt + DELAY >= w.now then readAt + DELAY - w.now else 0;
      assert u in Due(Apply(w', Tick(d)).db, Apply(w', Tick(d)).now);
    }
  }

  // ---------------------------------------------------------------- claim once, cancel safety

  /** A claimed row stays started, or is gone, until the user is scheduled again. */
  lemma {:induction false} ClaimSticks(h: History, j: nat, n: nat, u: UserId)
    requires Run(h) && Claims(h, j, u) && j < n <= |h.es| && NoSchedule(h, u, j, n)
    ensures !Cancellable(h.ws[n].db, u)
  {
    assert Step(h.ws[n - 1], h.es[n - 1], h.ws[n]);
    StepPending(h.ws[n - 1], h.es[n - 1], u);
    if j + 1 < n {
      ClaimSticks(h, j, n - 1, u);
      assert !Schedules(h, n - 1, u);
    }
  }

  /** Two claims of one user, by whatever workers, are separated by a schedule: each schedule
      is claimed at most once. */
  lemma ClaimOnce(h: History, j: nat, j': nat, u: UserId)
    requires Run(h) && Claims(h, j, u) && Claims(h, j', u) && j < j'
    ensures exists m: nat :: j < m < j' && Schedules(h, m, u)
  {
    assert Step(h.ws[j'], h.es[j'], h.ws[j' + 1]);
    if NoSchedule(h, u, j, j') {
      ClaimSticks(h, j, j', u);
    }
  }

  /** Between a claim and the next schedule no cancel removes the row. */
  lemma CancelAfterClaimFails(h: History, j: nat, m: nat, u: UserId)
    requires Run(h) && Claims(h, j, u) && j < m < |h.es| && NoSchedule(h, u, j, m)
    requires h.es[m] == CancelRow(u)
    ensures h.ws[m + 1] == h.ws[m]
  {
    ClaimSticks(h, j, m, u);
    assert Step(h.ws[m], h.es[m], h.ws[m + 1]);
  }

  /** A worker can hold a claim on a user whose row is not started only if the user was
      scheduled again after that claim. */
  lemma StaleClaimMeansReschedule(h: History, n: nat, w: Worker, u: UserId) returns (j: nat, m: nat)
    requires Run(h) && n <= |h.es| && (w, u) in h.ws[n].held && Cancellable(h.ws[n].db, u)
    ensures j < m < n && Claims(h, j, u) && h.es[j].worker == w && Schedules(h, m, u)
  {
    var i;
    i, j := ClaimOf(h, n, w, u);
    if NoSchedule(h, u, j, n) {
      ClaimSticks(h, j, n, u);
    }
    m :| j < m < n && Schedules(h, m, u);
  }

  ghost predicate SomeoneHolds(w: World, u: UserId) {
    exists p :: p in w.held && p.1 == u
  }

  /** From a point where nobody holds u and u has no row, u survives until it is scheduled again. */
  lemma {:induction false} UnheldSurvives(h: History, m: nat, n: nat, u: UserId)
    requires Run(h) && m <= n <= |h.es|
    requires u in h.ws[m].db.users && u !in h.ws[m].db.pending && !SomeoneHolds(h.ws[m], u)
    requires forall k: nat :: m <= k < n ==> !Schedules(h, k, u)
    ensures u in h.ws[n].db.users && u !in h.ws[n].db.pending && !SomeoneHolds(h.ws[n], u)
  {
    if m < n {
      UnheldSurvives(h, m, n - 1, u);
      var w, e := h.ws[n - 1], h.es[n - 1];
      assert Step(w, e, h.ws[n]) && !Schedules(h, n - 1, u);
      StepUsers(w, e, u);
      StepPending(w, e, u);
      forall p | p in Apply(w, e).held ensures p.1 != u { StepHeld(w, e, p); }
    }
  }

  /** History g continues history h, and in the continuation u is deleted and never scheduled. */
  ghost predicate DeletesUnscheduled(h: History, g: History, u: UserId) {
    && Run(g) && h.ws <= g.ws && h.es <= g.es
    && u !in g.ws[|g.es|].db.users
    && forall k: nat :: |h.es| <= k < |g.es| ==> !Schedules(g, k, u)
  }

  /** Some continuation deletes u without scheduling it. */
  ghost predicate Deletable(h: History, u: UserId) {
    exists g :: DeletesUnscheduled(h, g, u)
  }

  lemma HeldIsDeletable(h: History, u: UserId)
    requires Run(h) && SomeoneHolds(h.ws[|h.es|], u)
    ensures Deletable(h, u)
  {
    var p :| p in h.ws[|h.es|].held && p.1 == u;
    var g := Extend(h, RemoveUser(p.0, u));
    assert DeletesUnscheduled(h, g, u);
  }

  /** Cancel safety. A cancel that removed u's row can still be followed by u's deletion without
      any later schedule if and only if some worker holds a claim on u when the cancel happens. */
  lemma CancelledUserDeletableIff(h: History, u: UserId)
    requires Run(h) && |h.es| > 0 && Cancels(h, |h.es| - 1, u)
    ensures Deletable(h, u) <==> SomeoneHolds(h.ws[|h.es|], u)
  {
    var n := |h.es|;
    RunSound(h, n - 1);
    if SomeoneHolds(h.ws[n], u) {
      HeldIsDeletable(h, u);
    } else if Deletable(h, u) {
      var g :| DeletesUnscheduled(h, g, u);
      assert g.ws[n] == h.ws[n];
      UnheldSurvives(g, n, |g.es|, u);
    }
  }

  /** A deletion after an effective cancel, when nobody held the user at the cancel, rests on a
      schedule that came after the cancel and was thirty days old when it was claimed. */
  lemma DeletionAfterCancel(h: History, c: nat, k: nat, u: UserId) returns (i: nat, j: nat)
    requires Run(h) && c < k < |h.es| && Cancels(h, c, u) && !SomeoneHolds(h.ws[c], u)
    requires u in h.ws[k].db.users && u !in h.ws[k + 1].db.users
    ensures c < i < j < k && ClaimedAfterGrace(h, i, j, h.es[k].worker, u)
  {
    i, j := GracePeriod(h, k, u);
    assert Step(h.ws[c], h.es[c], h.ws[c + 1]);
  }

  lemma Extend(h: History, e: Event) returns (g: History)
    requires Run(h) && Enabled(h.ws[|h.es|], e)
    ensures Run(g) && g.es == h.es + [e] && g.ws == h.ws + [Apply(h.ws[|h.es|], e)]
  {
    g := History(h.ws + [Apply(h.ws[|h.es|], e)], h.es + [e]);
  }

  lemma DueExample() returns (h: History)
    ensures Run(h) && |h.es| == 3
    ensures h.ws[3] == World(DELAY, Tables(map[0 := User("ann", "", "x")], map[],
      map[0 := PendingRow(0, DELAY, None)], 1), map[], {}, {}, {0}, {})
  {
    h := Extend(History([START], []), NewUser(0, User("ann", "", "x")));
    h := Extend(h, ScheduleRow(0, 0));
    h := Extend(h, Tick(DELAY));
  }

  lemma ClaimedExample() returns (h: History)
    ensures Run(h) && |h.es| == 4 && h.es[3] == ClaimRows(7, {0})
    ensures h.ws[4] == World(DELAY, Tables(map[0 := User("ann", "", "x")], map[],
      map[0 := PendingRow(0, DELAY, Some(DELAY))], 1), map[], {(7, 0)}, {}, {0}, {})
  {
    h := DueExample();
    h := Extend(h, ClaimRows(7, {0}));
    assert h.ws[4].held == {(7, 0)};
    assert h.ws[4].db.pending == map[0 := PendingRow(0, DELAY, Some(DELAY))];
  }

  /** The failing family is not empty: claim, reschedule, cancel, and the first claim's worker
      deletes the user although the cancel reported success. */
  lemma CancelCanBeLost() returns (h: History)
    ensures Run(h) && |h.es| == 7 && Cancels(h, 5, 0)
    ensures 0 in h.ws[6].db.users && 0 !in h.ws[7].db.users
  {
    h := ClaimedExample();
    h := Extend(h, ScheduleRow(0, DELAY));
    h := Extend(h, CancelRow(0));
    h := Extend(h, RemoveUser(7, 0));
  }

  /** The run that GraceFromRowIff excludes: the request read the clock before the row was written, and
      the row is claimed less than thirty days after its scheduled_at. */
  lemma StaleReadShortensGrace() returns (h: History)
    ensures Run(h) && |h.es| == 5 && Claims(h, 4, 0) && 0 in h.ws[4].db.pending
    ensures h.ws[4].now < h.ws[4].db.pending[0].scheduledAt + 2_592_000_000_000
  {
    h := Extend(History([START], []), NewUser(0, User("ann", "", "x")));
    h := Extend(h, Tick(1));
    h := Extend(h, ScheduleRow(0, 0));
    h := Extend(h, Tick(DELAY - 1));
    assert h.ws[4].db.pending == map[0 := PendingRow(1, DELAY, None)];
    h := Extend(h, ClaimRows(7, {0}));
  }

  // ---------------------------------------------------------------- what a cancel reports

  /** A cancel of u, its DELETE at event c and its check reading the table at point n, reports success. */
  ghost predicate ReportsSuccess(h: History, c: nat, n: nat, u: UserId)
    requires |h.ws| == |h.es| + 1
  {
    && c < n <= |h.es| && h.es[c] == CancelRow(u)
    && (Cancels(h, c, u) || u !in h.ws[n].db.pending || h.ws[n].db.pending[u].startedAt.None?)
  }

  /** Event m starts u's row or takes it away. */
  ghost predicate Ends(h: History, m: nat, u: UserId)
    requires |h.ws| == |h.es| + 1
  {
    || Claims(h, m, u) || Cancels(h, m, u)
    || (m < |h.es| && h.es[m].RemoveUser? && h.es[m].user == u)
    || (m < |h.es| && h.es[m].ClearRow? && h.es[m].user == u)
  }

  /** u was scheduled after event c, and nothing has started or removed the row since. */
  ghost predicate ScheduledAgain(h: History, c: nat, n: nat, u: UserId)
    requires |h.ws| == |h.es| + 1
  {
    exists i: nat :: c < i < n && Schedules(h, i, u) && forall m: nat :: i < m < n ==> !Ends(h, m, u)
  }

  lemma StepCancellable(w: World, e: Event, u: UserId)
    requires Sound(w) && Enabled(w, e)
    ensures Cancellable(Apply(w, e).db, u) <==>
      || (e.ScheduleRow? && e.user == u && u in w.db.users)
      || (Cancellable(w.db, u) && e != CancelRow(u) && !(e.ClaimRows? && u in e.rows)
          && !((e.RemoveUser? || e.ClearRow?) && e.user == u))
  {
  }

  lemma CancellableAt(h: History, n: nat, u: UserId)
    requires Run(h) && 0 < n <= |h.es|
    ensures Cancellable(h.ws[n].db, u) <==>
      Schedules(h, n - 1, u) || (Cancellable(h.ws[n - 1].db, u) && !Ends(h, n - 1, u))
  {
    assert Step(h.ws[n - 1], h.es[n - 1], h.ws[n]);
    RunSound(h, n - 1);
    StepCancellable(h.ws[n - 1], h.es[n - 1], u);
  }

  lemma ScheduledAgainAt(h: History, c: nat, n: nat, u: UserId)
    requires |h.ws| == |h.es| + 1 && c + 1 < n <= |h.es|
    ensures ScheduledAgain(h, c, n, u) <==>
      Schedules(h, n - 1, u) || (ScheduledAgain(h, c, n - 1, u) && !Ends(h, n - 1, u))
  {
    if ScheduledAgain(h, c, n - 1, u) && !Ends(h, n - 1, u) {
      var i: nat :| c < i < n - 1 && Schedules(h, i, u) && forall m: nat :: i < m < n - 1 ==> !Ends(h, m, u);
      assert forall m: nat :: i < m < n ==> !Ends(h, m, u);
    }
  }

  /** After a cancel, whether it removed a row or not, an unstarted row of u stands exactly when u was
      scheduled again. */
  lemma {:induction false} PendingAfterCancelIff(h: History, c: nat, n: nat, u: UserId)
    requires Run(h) && c < n <= |h.es| && h.es[c] == CancelRow(u)
    ensures Cancellable(h.ws[n].db, u) <==> ScheduledAgain(h, c, n, u)
  {
    CancellableAt(h, n, u);
    if c < n - 1 {
      PendingAfterCancelIff(h, c, n - 1, u);
      ScheduledAgainAt(h, c, n, u);
    }
  }

  /** The row is gone when a cancel reports success if and only if u was not scheduled again between
      its two statements, or that schedule has been undone. */
  lemma SuccessIsTrueIff(h: History, c: nat, n: nat, u: UserId)
    requires Run(h) && ReportsSuccess(h, c, n, u) && !Cancels(h, c, u)
    ensures u !in h.ws[n].db.pending <==> !ScheduledAgain(h, c, n, u)
  {
    PendingAfterCancelIff(h, c, n, u);
  }

  /** A started row is not cancelled, but a reschedule before the check makes the cancel report
      success with the deletion still pending. */
  lemma SuccessCanBeFalse() returns (h: History)
    ensures Run(h) && |h.es| == 6 && ReportsSuccess(h, 4, 6, 0) && !Cancels(h, 4, 0) && 0 in h.ws[6].db.pending
  {
    h := ClaimedExample();
    h := Extend(h, CancelRow(0));
    h := Extend(h, ScheduleRow(0, DELAY));
  }

  // ---------------------------------------------------------------- token chain

  /** Event k leaves its new hash in row t. */
  ghost predicate WritesRow(h: History, k: nat, t: TokenId)
    requires |h.ws| == |h.es| + 1
  {
    && k < |h.es| && t in h.ws[k + 1].db.tokens
    && (h.es[k].WriteToken? || h.es[k].Rotate?)
    && h.ws[k + 1].db.tokens[t].hash == h.es[k].hash
  }

  /** The hash in a row is the one last written to it. */
  lemma {:induction false} LastWriteOf(h: History, n: nat, t: TokenId) returns (k: nat)
    requires Run(h) && n <= |h.es| && t in h.ws[n].db.tokens
    ensures k < n && WritesRow(h, k, t) && h.es[k].hash == h.ws[n].db.tokens[t].hash
    ensures forall m: nat :: k < m < n ==> !WritesRow(h, m, t)
    ensures forall m: nat :: k < m <= n ==> t in h.ws[m].db.tokens
  {
    assert Consistent(h.ws[n - 1].db) by { RunSound(h, n - 1); }
    assert h.ws[n] == Apply(h.ws[n - 1], h.es[n - 1]) by {
      assert Step(h.ws[n - 1], h.es[n - 1], h.ws[n]);
    }
    StepTokens(h.ws[n - 1], h.es[n - 1], t);
    if WritesRow(h, n - 1, t) {
      k := n - 1;
    } else {
      k := LastWriteOf(h, n - 1, t);
    }
  }

  ghost predicate Draws(h: History, k: nat, hash: Hash) {
    k < |h.es| && (h.es[k].WriteToken? || h.es[k].Rotate?) && h.es[k].hash == hash
  }

  lemma {:induction false} UsedHashStays(h: History, k: nat, n: nat, hash: Hash)
    requires Run(h) && Draws(h, k, hash) && k < n <= |h.es|
    ensures hash in h.ws[n].usedHashes
  {
    assert Step(h.ws[n - 1], h.es[n - 1], h.ws[n]);
    if k + 1 < n {
      UsedHashStays(h, k, n - 1, hash);
    }
  }

  lemma DrawnOnce(h: History, j: nat, k: nat, hash: Hash)
    requires Run(h) && Draws(h, j, hash) && Draws(h, k, hash)
    ensures j == k
  {
    if j != k {
      var a, b := if j < k then j else k, if j < k then k else j;
      assert Step(h.ws[b], h.es[b], h.ws[b + 1]);
      UsedHashStays(h, a, b, hash);
    }
  }

  /** At every point each device has one row, and exactly that row's hash is accepted for it. */
  lemma OneTokenPerDevice(h: History, n: nat, t: TokenId)
    requires Run(h) && n <= |h.es| && t in h.ws[n].db.tokens
    ensures Accepting(h.ws[n].db, h.ws[n].now, h.ws[n].db.tokens[t].hash) == {t}
    ensures forall j :: j in h.ws[n].db.tokens && h.ws[n].db.tokens[j].device == h.ws[n].db.tokens[t].device ==> j == t
  {
    RunSound(h, n);
  }

  /** A token superseded in its row, by an upsert or a rotation, or whose row was removed, is
      never accepted again. */
  lemma SupersededForever(h: History, k: nat, m: nat, n: nat, t: TokenId)
    requires Run(h) && WritesRow(h, k, t) && k < m < n <= |h.es|
    requires WritesRow(h, m, t) || t !in h.ws[m + 1].db.tokens
    ensures Accepting(h.ws[n].db, h.ws[n].now, h.es[k].hash) == {}
  {
    forall t' ensures t' !in Accepting(h.ws[n].db, h.ws[n].now, h.es[k].hash) {
      if t' in Accepting(h.ws[n].db, h.ws[n].now, h.es[k].hash) {
        var k' := LastWriteOf(h, n, t');
        DrawnOnce(h, k, k', h.es[k].hash);
        RunSound(h, k + 1);
      }
    }
  }

  /** Event m upserts a token on the device for an existing user. */
  ghost predicate Upserts(h: History, m: nat, device: string)
    requires |h.ws| == |h.es| + 1
  {
    && m < |h.es| && h.es[m].WriteToken? && h.es[m].device == device
    && h.es[m].user in h.ws[m].db.users
  }

  /** Owner of a device after event k, judged from the events since r alone. */
  ghost function OwnerSince(h: History, r: nat, k: nat, device: string, owner: UserId): UserId
    requires |h.ws| == |h.es| + 1 && r <= k <= |h.es|
    decreases k
  {
    if k == r then owner
    else if Upserts(h, k - 1, device) then h.es[k - 1].user
    else OwnerSince(h, r, k - 1, device, owner)
  }

  lemma {:induction false} SerialGrows(h: History, r: nat, k: nat)
    requires Run(h) && r <= k <= |h.es|
    ensures h.ws[r].db.nextToken <= h.ws[k].db.nextToken
  {
    if r < k {
      SerialGrows(h, r, k - 1);
      assert Step(h.ws[k - 1], h.es[k - 1], h.ws[k]);
    }
  }

  lemma StepRowIds(w: World, e: Event, t: TokenId)
    requires Consistent(w.db) && t in Apply(w, e).db.tokens && t < w.db.nextToken
    ensures t in w.db.tokens
  {
    if e.WriteToken? && TokenAdmitted(w.db, e.user, e.device, e.hash) {
      UpsertTokenRows(w.db, e.user, e.device, e.deviceName, e.hash, t);
    }
  }

  /** Row ids are not reused: a row present at r and at k is present in between. */
  lemma RowPersists(h: History, r: nat, k: nat, t: TokenId)
    requires Run(h) && r < k <= |h.es| && t in h.ws[r].db.tokens && t in h.ws[k].db.tokens
    ensures t in h.ws[k - 1].db.tokens
  {
    assert t < h.ws[r].db.nextToken by { RunSound(h, r); }
    SerialGrows(h, r, k - 1);
    assert Consistent(h.ws[k - 1].db) by { RunSound(h, k - 1); }
    assert h.ws[k] == Apply(h.ws[k - 1], h.es[k - 1]) by {
      assert Step(h.ws[k - 1], h.es[k - 1], h.ws[k]);
    }
    StepRowIds(h.ws[k - 1], h.es[k - 1], t);
  }

  /** One step on a row that survives it: an admitted upsert of its device sets the owner,
      nothing else does. */
  lemma StepOwner(w: World, e: Event, t: TokenId)
    requires Sound(w) && Enabled(w, e) && t in w.db.tokens && t in Apply(w, e).db.tokens
    ensures var row, row' := w.db.tokens[t], Apply(w, e).db.tokens[t];
      && row'.device == row.device
      && row'.user == if e.WriteToken? && e.device == row.device && e.user in w.db.users then e.user else row.user
  {
    if e.WriteToken? {
      assert TokenAdmitted(w.db, e.user, e.device, e.hash) <==> e.user in w.db.users;
      if e.user in w.db.users {
        UpsertTokenRows(w.db, e.user, e.device, e.deviceName, e.hash, t);
      }
    }
  }

  /** Rotation is keyed by the row alone, so the token a login by token returns, having read row t
      at point r and rotated it at event k, is accepted for whoever upserted the device last in
      between, and for the user it was read for exactly when that is the same user. */
  lemma {:induction false} RotatedTokenOwner(h: History, r: nat, k: nat, t: TokenId)
    requires Run(h) && r <= k <= |h.es| && t in h.ws[r].db.tokens && t in h.ws[k].db.tokens
    ensures var row := h.ws[r].db.tokens[t];
      && h.ws[k].db.tokens[t].device == row.device
      && h.ws[k].db.tokens[t].user == OwnerSince(h, r, k, row.device, row.user)
  {
    if r < k {
      RowPersists(h, r, k, t);
      RotatedTokenOwner(h, r, k - 1, t);
      RunSound(h, k - 1);
      assert Step(h.ws[k - 1], h.es[k - 1], h.ws[k]);
      StepOwner(h.ws[k - 1], h.es[k - 1], t);
    }
  }

  lemma SharedDeviceExample() returns (h: History)
    ensures Run(h) && |h.es| == 3
    ensures h.ws[3].db == Tables(map[0 := User("ann", "", "x"), 1 := User("bob", "", "y")],
      map[1 := TokenRow(0, Sha256("t1"), "phone", "", None, None)], map[], 2)
    ensures h.ws[3].usedHashes == {Sha256("t1")}
  {
    h := Extend(History([START], []), NewUser(0, User("ann", "", "x")));
    h := Extend(h, NewUser(1, User("bob", "", "y")));
    assert h.ws[2].db == Tables(map[0 := User("ann", "", "x"), 1 := User("bob", "", "y")], map[], map[], 1);
    h := Extend(h, WriteToken(0, "phone", "", Sha256("t1")));
  }

  /** A rotated token can end up accepted for another user: the row read for user 0 was taken
      over by user 1 on the same device before it was rotated. */
  lemma RotationCanChangeHands() returns (h: History)
    ensures Run(h) && |h.es| == 5 && h.es[4] == Rotate(1, Sha256("t3"))
    ensures 1 in h.ws[3].db.tokens && h.ws[3].db.tokens[1].user == 0
    ensures Accepting(h.ws[5].db, h.ws[5].now, Sha256("t3")) == {1} && h.ws[5].db.tokens[1].user == 1
  {
    h := SharedDeviceExample();
    h := Extend(h, WriteToken(1, "phone", "", Sha256("t2")));
    assert h.ws[4].db.tokens[1] == TokenRow(1, Sha256("t2"), "phone", "", None, None);
    h := Extend(h, Rotate(1, Sha256("t3")));
  }
}
