/** Laws of request-level runs: the username cache agrees with the table, a pending deletion
    blocks its user, and a deletion scheduled and cancelled leaves no trace. */
module RequestLaws {
  import opened Options
  import opened Text
  import opened Usernames
  import opened AccountTables
  import opened AccountRequests
  import opened RequestRuns
  import S = AccountRuns

  // ---------------------------------------------------------------- username cache

  /** The cache holds exactly the usernames of the table, all of them valid. */
  ghost predicate CacheExact(w: World) {
    && w.cache.Keys == NamesOf(w.db, w.db.users.Keys)
    && forall u :: u in w.db.users ==> Valid(w.db.users[u].username)
  }

  lemma NameInserted(t: Tables, id: UserId, user: User)
    requires id !in t.users && !UsernameTaken(t, user.username)
    ensures var t' := InsertUser(t, id, user); NamesOf(t', t'.users.Keys) == NamesOf(t, t.users.Keys) + {user.username}
  {
    var t' := InsertUser(t, id, user);
    forall u | u in t.users.Keys ensures t.users[u].username in NamesOf(t', t'.users.Keys) {
      assert t'.users[u] == t.users[u];
    }
    assert t'.users[id] == user;
  }

  lemma NameDropped(t: Tables, u: UserId)
    requires UniqueUsernames(t) && u in t.users
    ensures var t' := DeleteUser(t, u); NamesOf(t', t'.users.Keys) == NamesOf(t, t.users.Keys) - {t.users[u].username}
  {
    var t' := DeleteUser(t, u);
    forall v | v in t.users.Keys && t.users[v].username != t.users[u].username
      ensures t.users[v].username in NamesOf(t', t'.users.Keys)
    {
      assert t'.users[v] == t.users[v];
    }
  }

  lemma ServeUsers(env: Env, w: World, r: Request)
    requires S.Sound(w) && Enabled(w, r) && !r.RegisterUser? && !r.ProcessItem?
    ensures Serve(env, w, r).0.db.users == w.db.users && Serve(env, w, r).0.cache == w.cache
  {
  }

  lemma ServeCache(env: Env, w: World, r: Request)
    requires Lowering(env.lower) && S.Sound(w) && Enabled(w, r) && CacheExact(w)
    ensures CacheExact(Serve(env, w, r).0)
  {
    var w' := Serve(env, w, r).0;
    if r.RegisterUser? {
      if RegisterRefusal(env, w.db, Some(w.cache), NO_FAULTS, r.creds).None? {
        var name := NormalizeUsername(r.creds.username, env.lower);
        var user := User(name, TrimSpace(r.creds.displayName), r.encoded);
        NameInserted(w.db, r.id, user);
        assert w'.db.users == InsertUser(w.db, r.id, user).users;
        assert w'.cache == w.cache[name := r.id];
      }
    } else if r.ProcessItem? {
      if r.user in w.db.users {
        ValidIsNormal(w.db.users[r.user].username, env.lower);
        NameDropped(w.db, r.user);
      }
    } else {
      ServeUsers(env, w, r);
    }
  }

  /** In every run of requests, with cache operations succeeding, the cache equals the table. */
  lemma {:induction false} CacheMatchesTable(env: Env, t: Trace, n: nat)
    requires Lowering(env.lower) && Run(env, t) && n <= |t.rs|
    ensures CacheExact(t.ws[n])
  {
    if n == 0 {
      Begins(env, t);
    } else {
      CacheMatchesTable(env, t, n - 1);
      RunSound(env, t, n - 1);
      StepAt(env, t, n - 1);
      ServeCache(env, t.ws[n - 1], t.rs[n - 1]);
    }
  }

  /** Registration then decides and stores exactly what it would without the cache. */
  lemma RegisterNeedsNoCache(env: Env, t: Trace, n: nat, creds: Credentials, id: UserId, encoded: string, token: string)
    requires Lowering(env.lower) && Run(env, t) && n <= |t.rs|
    ensures var with, without := Register(env, t.ws[n].db, Some(t.ws[n].cache), NO_FAULTS, creds, id, encoded, token),
                                 Register(env, t.ws[n].db, None, NO_FAULTS, creds, id, encoded, token);
      with.response == without.response && with.db == without.db
  {
    CacheMatchesTable(env, t, n);
    var w, name := t.ws[n], NormalizeUsername(creds.username, env.lower);
    if name in w.cache {
      assert name in NamesOf(w.db, w.db.users.Keys);
      var u :| u in w.db.users && w.db.users[u].username == name;
    }
  }

  // ---------------------------------------------------------------- pending gate

  lemma RegisterNotPending(env: Env, w: World, r: Request, u: UserId)
    requires S.Sound(w) && r.RegisterUser? && u in w.db.pending
    ensures Serve(env, w, r).1.Ok? ==> Serve(env, w, r).1.result.user != u
  {
  }

  lemma PasswordNotPending(env: Env, w: World, r: Request, u: UserId)
    requires r.PasswordLogin? && u in w.db.pending
    ensures Serve(env, w, r).1.Ok? ==> Serve(env, w, r).1.result.user != u
  {
  }

  lemma TokenNotPending(env: Env, w: World, r: Request, u: UserId)
    requires r.TokenLogin? && u in w.db.pending
    ensures Serve(env, w, r).1.Ok? ==> Serve(env, w, r).1.result.user != u
  {
  }

  lemma ServePending(env: Env, w: World, r: Request, u: UserId)
    requires S.Sound(w) && Enabled(w, r) && u in w.db.pending
    ensures Serve(env, w, r).1.Ok? ==> Serve(env, w, r).1.result.user != u
  {
    if r.RegisterUser? {
      RegisterNotPending(env, w, r, u);
    } else if r.PasswordLogin? {
      PasswordNotPending(env, w, r, u);
    } else if r.TokenLogin? {
      TokenNotPending(env, w, r, u);
    }
  }

  lemma NotForPending(env: Env, t: Trace, k: nat, u: UserId)
    requires Run(env, t) && k < |t.rs| && u in t.ws[k].db.pending
    ensures t.outs[k].Ok? ==> t.outs[k].result.user != u
  {
    StepAt(env, t, k);
    RunSound(env, t, k);
    ServePending(env, t.ws[k], t.rs[k], u);
  }

  /** While u's deletion is pending no request hands out a token for u, and every token row of u
      is one that was already there. */
  lemma PendingGate(env: Env, t: Trace, k: nat, u: UserId)
    requires Run(env, t) && k < |t.rs| && u in t.ws[k].db.pending
    ensures t.outs[k].Ok? ==> t.outs[k].result.user != u
    ensures forall j :: j in t.ws[k + 1].db.tokens && t.ws[k + 1].db.tokens[j].user == u ==>
      j in t.ws[k].db.tokens && t.ws[k].db.tokens[j] == t.ws[k + 1].db.tokens[j]
  {
    NotForPending(env, t, k, u);
    forall j | j in t.ws[k + 1].db.tokens && t.ws[k + 1].db.tokens[j].user == u
      ensures j in t.ws[k].db.tokens && t.ws[k].db.tokens[j] == t.ws[k + 1].db.tokens[j]
    {
      RowOrigin(env, t, k + 1, j);
    }
  }

  // ---------------------------------------------------------------- schedule and cancel leave no trace

  /** w is v with an unstarted pending row for u added. */
  ghost predicate OnlyPending(w: World, v: World, u: UserId) {
    && u in v.db.users && u !in v.db.pending && Cancellable(w.db, u)
    && w == v.(db := v.db.(pending := v.db.pending[u := w.db.pending[u]]))
  }

  /** Requests that concern u's own account: they are refused, or only move the pending date. */
  ghost predicate Concerns(env: Env, w: World, r: Request, u: UserId) {
    match r
    case PasswordLogin(creds, _) => UserNamed(w.db, NormalizeUsername(creds.username, env.lower)) == Some(u)
    case TokenLogin(presented, _) =>
      exists k :: k in Accepting(w.db, w.now, Sha256(TrimSpace(presented))) && w.db.tokens[k].user == u
    case Schedule(username, _) => UserNamed(w.db, NormalizeUsername(username, env.lower)) == Some(u)
    case GuardedRequest(session, _, _) => session == Some(u)
    case _ => false
  }

  /** Requests that end u's pending period: a cancel with its password, a claim that takes it, or a
      worker that has held u since before the period and now deletes it. */
  ghost predicate Ends(env: Env, w: World, r: Request, u: UserId) {
    match r
    case CancelPending(username, password) => Identify(env, w.db, username, password) == Some(u)
    case ClaimBatch(_, rows) => u in rows
    case ProcessItem(_, user) => user == u
    case _ => false
  }

  lemma SameNames(w: World, v: World, u: UserId, name: string)
    requires S.Sound(v) && OnlyPending(w, v, u)
    ensures UserNamed(w.db, name) == UserNamed(v.db, name)
  {
    assert w.db.users == v.db.users;
    assert UsernameTaken(w.db, name) == UsernameTaken(v.db, name);
  }

  lemma BatchWithout(w: World, v: World, u: UserId, rows: set<UserId>)
    requires OnlyPending(w, v, u) && IsBatch(w.db, w.now, rows, BATCH) && u !in rows
    ensures IsBatch(v.db, v.now, rows, BATCH)
  {
    var dw, dv := Due(w.db, w.now), Due(v.db, v.now);
    assert dv == dw - {u};
    assert |dv| == |dw| - if u in dw then 1 else 0;
    Smaller(rows, dv);
  }

  lemma Smaller<T>(a: set<T>, b: set<T>)
    requires a <= b
    ensures |a| <= |b|
  {
    assert b == a + (b - a);
  }

  lemma ConcernedTokenLogin(env: Env, w: World, v: World, r: Request, u: UserId)
    requires S.Sound(v) && OnlyPending(w, v, u) && r.TokenLogin? && Concerns(env, w, r, u)
    ensures Serve(env, w, r).0 == w && !Serve(env, w, r).1.Ok?
  {
    assert UniqueHashes(w.db);
    var k :| k in Accepting(w.db, w.now, Sha256(TrimSpace(r.presented))) && w.db.tokens[k].user == u;
    assert Accepting(w.db, w.now, Sha256(TrimSpace(r.presented))) == {k};
  }

  lemma ConcernedPasswordLogin(env: Env, w: World, r: Request, u: UserId)
    requires u in w.db.pending && r.PasswordLogin? && Concerns(env, w, r, u)
    ensures Serve(env, w, r).0 == w && !Serve(env, w, r).1.Ok?
  {
  }

  lemma ConcernedSchedule(env: Env, w: World, v: World, r: Request, u: UserId)
    requires OnlyPending(w, v, u) && r.Schedule? && Concerns(env, w, r, u)
    ensures OnlyPending(Serve(env, w, r).0, v, u) && !Serve(env, w, r).1.Ok?
  {
    var w' := Serve(env, w, r).0;
    assert w' == w || w' == w.(db := AccountTables.Schedule(w.db, u, w.now + DELAY, w.now));
  }

  /** A request about u itself leaves the other accounts and u's tokens as they were. */
  lemma ConcernedStep(env: Env, w: World, v: World, r: Request, u: UserId)
    requires S.Sound(v) && OnlyPending(w, v, u) && Enabled(w, r) && Concerns(env, w, r, u)
    ensures OnlyPending(Serve(env, w, r).0, v, u) && !Serve(env, w, r).1.Ok?
  {
    if r.TokenLogin? {
      ConcernedTokenLogin(env, w, v, r, u);
    } else if r.PasswordLogin? {
      ConcernedPasswordLogin(env, w, r, u);
    } else if r.Schedule? {
      ConcernedSchedule(env, w, v, r, u);
    }
  }

  /** Any other request is answered the same with and without u's pending row. */
  lemma UnconcernedStep(env: Env, w: World, v: World, r: Request, u: UserId)
    requires S.Sound(v) && OnlyPending(w, v, u) && Enabled(w, r)
    requires !Concerns(env, w, r, u) && !Ends(env, w, r, u)
    ensures Enabled(v, r) && Serve(env, w, r).1 == Serve(env, v, r).1
    ensures OnlyPending(Serve(env, w, r).0, Serve(env, v, r).0, u)
  {
    match r
    case RegisterUser(creds, id, encoded, token) => SameRegister(env, w, v, r, u);
    case PasswordLogin(creds, token) => SamePasswordLogin(env, w, v, r, u);
    case TokenLogin(presented, token) => SameTokenLogin(env, w, v, r, u);
    case Schedule(username, password) => SameSchedule(env, w, v, r, u);
    case CancelPending(username, password) => SameCancel(env, w, v, r, u);
    case ProcessItem(worker, user) => SameItem(env, w, v, r, u);
    case ClaimBatch(worker, rows) => SameClaim(env, w, v, r, u);
    case GuardedRequest(session, before, after) => SameGuarded(env, w, v, r, u);
    case _ => SameWorkerStep(env, w, v, r, u);
  }

  lemma SameClaim(env: Env, w: World, v: World, r: Request, u: UserId)
    requires OnlyPending(w, v, u) && Enabled(w, r) && r.ClaimBatch? && !Ends(env, w, r, u)
    ensures Enabled(v, r) && Serve(env, w, r).1 == Serve(env, v, r).1
    ensures OnlyPending(Serve(env, w, r).0, Serve(env, v, r).0, u)
  {
    BatchWithout(w, v, u, r.rows);
    assert Serve(env, w, r).0.db.pending == Serve(env, v, r).0.db.pending[u := w.db.pending[u]];
  }

  lemma SameGuarded(env: Env, w: World, v: World, r: Request, u: UserId)
    requires OnlyPending(w, v, u) && r.GuardedRequest? && !Concerns(env, w, r, u)
    ensures Serve(env, w, r).1 == Serve(env, v, r).1
    ensures OnlyPending(Serve(env, w, r).0, Serve(env, v, r).0, u)
  {
  }

  lemma SameWorkerStep(env: Env, w: World, v: World, r: Request, u: UserId)
    requires OnlyPending(w, v, u) && Enabled(w, r) && (r.Tick? || r.FailItem?)
    ensures Enabled(v, r) && Serve(env, w, r).1 == Serve(env, v, r).1
    ensures OnlyPending(Serve(env, w, r).0, Serve(env, v, r).0, u)
  {
  }

  lemma SameRegister(env: Env, w: World, v: World, r: Request, u: UserId)
    requires S.Sound(v) && OnlyPending(w, v, u) && Enabled(w, r) && r.RegisterUser?
    ensures Serve(env, w, r).1 == Serve(env, v, r).1
    ensures OnlyPending(Serve(env, w, r).0, Serve(env, v, r).0, u)
  {
    var name := NormalizeUsername(r.creds.username, env.lower);
    SameNames(w, v, u, name);
    assert UsernameTaken(w.db, name) == UsernameTaken(v.db, name);
    if RegisterRefusal(env, v.db, Some(v.cache), NO_FAULTS, r.creds).None? {
      var user := User(name, TrimSpace(r.creds.displayName), r.encoded);
      var tw, tv := InsertUser(w.db, r.id, user), InsertUser(v.db, r.id, user);
      SameIssue(tw, tv, r.id, TrimSpace(r.creds.deviceId), TrimSpace(r.creds.deviceName), r.token);
    }
  }

  /** Issuing a token does not look at the pending table. */
  lemma SameIssue(tw: Tables, tv: Tables, user: UserId, device: string, deviceName: string, token: string)
    requires tw == tv.(pending := tw.pending)
    ensures UpsertToken(tw, user, device, deviceName, Sha256(token)) ==
            UpsertToken(tv, user, device, deviceName, Sha256(token)).(pending := tw.pending)
    ensures UpsertToken(tv, user, device, deviceName, Sha256(token)).pending == tv.pending
    ensures UpsertToken(tv, user, device, deviceName, Sha256(token)).users == tv.users
    ensures TokenAdmitted(tw, user, device, Sha256(token)) == TokenAdmitted(tv, user, device, Sha256(token))
  {
    assert HasDevice(tw, device) == HasDevice(tv, device);
  }

  lemma SamePasswordLogin(env: Env, w: World, v: World, r: Request, u: UserId)
    requires S.Sound(v) && OnlyPending(w, v, u) && Enabled(w, r) && r.PasswordLogin? && !Concerns(env, w, r, u)
    ensures Serve(env, w, r).1 == Serve(env, v, r).1
    ensures OnlyPending(Serve(env, w, r).0, Serve(env, v, r).0, u)
  {
    SameIdentity(env, w, v, r.creds.username, r.creds.password, u);
    var i := Identify(env, v.db, r.creds.username, r.creds.password);
    if i.Some? {
      SameIssue(w.db, v.db, i.value, TrimSpace(r.creds.deviceId), TrimSpace(r.creds.deviceName), r.token);
    }
  }

  lemma SameTokenLogin(env: Env, w: World, v: World, r: Request, u: UserId)
    requires S.Sound(v) && OnlyPending(w, v, u) && Enabled(w, r) && r.TokenLogin? && !Concerns(env, w, r, u)
    ensures Serve(env, w, r).1 == Serve(env, v, r).1
    ensures OnlyPending(Serve(env, w, r).0, Serve(env, v, r).0, u)
  {
    var hash := Sha256(TrimSpace(r.presented));
    assert Accepting(w.db, w.now, hash) == Accepting(v.db, v.now, hash);
    if Accepting(v.db, v.now, hash) != {} && TrimSpace(r.presented) != "" {
      var k := RowOf(v, r.presented);
      assert k in Accepting(w.db, w.now, hash);
      LoginByTokenRow(v, r.presented, r.token);
      assert Accepting(v.db, v.now, hash) == {k};
      assert RotationAdmitted(w.db, k, Sha256(r.token)) && RotationAdmitted(v.db, k, Sha256(r.token));
    }
  }

  lemma SameIdentity(env: Env, w: World, v: World, username: string, password: string, u: UserId)
    requires S.Sound(v) && OnlyPending(w, v, u)
    ensures Identify(env, w.db, username, password) == Identify(env, v.db, username, password)
  {
    SameNames(w, v, u, NormalizeUsername(username, env.lower));
  }

  lemma ServeSchedule(env: Env, w: World, r: Request)
    requires r.Schedule?
    ensures var i := Identify(env, w.db, r.username, r.password);
      Serve(env, w, r) ==
      if i.None? then (w, Err(InvalidCredentials))
      else (w.(db := AccountTables.Schedule(w.db, i.value, w.now + DELAY, w.now)), Scheduled((w.now + DELAY) / SECOND))
  {
  }

  /** Scheduling or cancelling another user keeps u's row the only difference. */
  lemma OtherUser(w: World, v: World, u: UserId, i: UserId, at: Time)
    requires OnlyPending(w, v, u) && i != u
    ensures OnlyPending(w.(db := AccountTables.Schedule(w.db, i, at, w.now)),
                        v.(db := AccountTables.Schedule(v.db, i, at, v.now)), u)
    ensures OnlyPending(w.(db := Cancel(w.db, i)), v.(db := Cancel(v.db, i)), u)
    ensures i in w.db.pending <==> i in v.db.pending
    ensures i in w.db.pending ==> w.db.pending[i] == v.db.pending[i]
  {
    assert AccountTables.Schedule(w.db, i, at, w.now).pending ==
           AccountTables.Schedule(v.db, i, at, v.now).pending[u := w.db.pending[u]];
    assert Cancel(w.db, i).pending == Cancel(v.db, i).pending[u := w.db.pending[u]];
  }

  lemma IdentifiedIsNamed(env: Env, t: Tables, username: string, password: string)
    ensures var i := Identify(env, t, username, password);
      i.Some? ==> UserNamed(t, NormalizeUsername(username, env.lower)) == i
  {
  }

  lemma SameScheduleOf(env: Env, w: World, v: World, r: Request, u: UserId, i: Option<UserId>)
    requires OnlyPending(w, v, u) && r.Schedule? && i != Some(u)
    requires Identify(env, w.db, r.username, r.password) == Identify(env, v.db, r.username, r.password) == i
    ensures Serve(env, w, r).1 == Serve(env, v, r).1
    ensures OnlyPending(Serve(env, w, r).0, Serve(env, v, r).0, u)
  {
    ServeSchedule(env, w, r);
    ServeSchedule(env, v, r);
    if i.Some? {
      OtherUser(w, v, u, i.value, w.now + DELAY);
    }
  }

  lemma SameSchedule(env: Env, w: World, v: World, r: Request, u: UserId)
    requires S.Sound(v) && OnlyPending(w, v, u) && r.Schedule? && !Concerns(env, w, r, u)
    ensures Serve(env, w, r).1 == Serve(env, v, r).1
    ensures OnlyPending(Serve(env, w, r).0, Serve(env, v, r).0, u)
  {
    SameIdentity(env, w, v, r.username, r.password, u);
    IdentifiedIsNamed(env, w.db, r.username, r.password);
    SameScheduleOf(env, w, v, r, u, Identify(env, w.db, r.username, r.password));
  }

  lemma SameCancel(env: Env, w: World, v: World, r: Request, u: UserId)
    requires S.Sound(v) && OnlyPending(w, v, u) && r.CancelPending? && !Ends(env, w, r, u)
    ensures Serve(env, w, r).1 == Serve(env, v, r).1
    ensures OnlyPending(Serve(env, w, r).0, Serve(env, v, r).0, u)
  {
    SameIdentity(env, w, v, r.username, r.password, u);
    var i := Identify(env, w.db, r.username, r.password);
    if i.Some? {
      OtherUser(w, v, u, i.value, 0);
    }
  }

  lemma SameItem(env: Env, w: World, v: World, r: Request, u: UserId)
    requires S.Sound(v) && OnlyPending(w, v, u) && Enabled(w, r) && r.ProcessItem? && !Ends(env, w, r, u)
    ensures Serve(env, w, r).1 == Serve(env, v, r).1
    ensures OnlyPending(Serve(env, w, r).0, Serve(env, v, r).0, u)
  {
    assert r.user != u;
    assert w.db.pending - {r.user} == (v.db.pending - {r.user})[u := w.db.pending[u]];
    assert DeleteUser(w.db, r.user).tokens == DeleteUser(v.db, r.user).tokens;
  }

  // ---------------------------------------------------------------- whole windows

  ghost predicate AllEnabled(env: Env, w: World, rs: seq<Request>)
    decreases |rs|
  {
    rs != [] ==> Enabled(w, rs[0]) && AllEnabled(env, Serve(env, w, rs[0]).0, rs[1..])
  }

  ghost function ServeAll(env: Env, w: World, rs: seq<Request>): World
    decreases |rs|
  {
    if rs == [] then w else ServeAll(env, Serve(env, w, rs[0]).0, rs[1..])
  }

  ghost predicate NoneEnds(env: Env, w: World, rs: seq<Request>, u: UserId)
    decreases |rs|
  {
    rs != [] ==> !Ends(env, w, rs[0], u) && NoneEnds(env, Serve(env, w, rs[0]).0, rs[1..], u)
  }

  /** The same requests with those about u's own account left out. */
  ghost function Without(env: Env, w: World, rs: seq<Request>, u: UserId): seq<Request>
    decreases |rs|
  {
    if rs == [] then []
    else (if Concerns(env, w, rs[0], u) then [] else [rs[0]]) + Without(env, Serve(env, w, rs[0]).0, rs[1..], u)
  }

  /** No request changes a user row that it leaves in place. */
  lemma UserKept(env: Env, w: World, r: Request, u: UserId)
    requires Enabled(w, r) && u in w.db.users
    ensures u in Serve(env, w, r).0.db.users ==> Serve(env, w, r).0.db.users[u] == w.db.users[u]
  {
  }

  lemma {:induction false} WindowErased(env: Env, w: World, v: World, rs: seq<Request>, u: UserId)
    requires S.Sound(v) && OnlyPending(w, v, u) && AllEnabled(env, w, rs) && NoneEnds(env, w, rs, u)
    ensures AllEnabled(env, v, Without(env, w, rs, u))
    ensures OnlyPending(ServeAll(env, w, rs), ServeAll(env, v, Without(env, w, rs, u)), u)
    ensures S.Sound(ServeAll(env, v, Without(env, w, rs, u)))
    ensures ServeAll(env, w, rs).db.users[u] == w.db.users[u]
    decreases |rs|
  {
    if rs != [] {
      var r, rest := rs[0], rs[1..];
      var w' := Serve(env, w, r).0;
      UserKept(env, w, r, u);
      if Concerns(env, w, r, u) {
        ConcernedStep(env, w, v, r, u);
        WindowErased(env, w', v, rest, u);
        assert Without(env, w, rs, u) == Without(env, w', rest, u);
      } else {
        UnconcernedStep(env, w, v, r, u);
        var v' := Serve(env, v, r).0;
        ServeSound(env, v, r);
        WindowErased(env, w', v', rest, u);
        assert Without(env, w, rs, u) == [r] + Without(env, w', rest, u);
        assert ([r] + Without(env, w', rest, u))[1..] == Without(env, w', rest, u);
      }
    }
  }

  /** Schedule, then any requests that neither claim nor cancel nor delete u, then cancel: the outcome is
      that of the same requests without the schedule, the cancel and u's own refused requests.
      With no requests in between the world is exactly restored, and so is every later login. */
  lemma ScheduleThenCancel(env: Env, v: World, rs: seq<Request>, username: string, password: string, u: UserId)
    requires S.Sound(v) && Identify(env, v.db, username, password) == Some(u)
    requires u !in v.db.pending
    requires var w := Serve(env, v, Schedule(username, password)).0;
      AllEnabled(env, w, rs) && NoneEnds(env, w, rs, u)
    ensures var w := Serve(env, v, Schedule(username, password)).0;
      var end, plain := ServeAll(env, w, rs), ServeAll(env, v, Without(env, w, rs, u));
      && AllEnabled(env, v, Without(env, w, rs, u))
      && Serve(env, end, CancelPending(username, password)) == (plain, Done)
  {
    var w := Serve(env, v, Schedule(username, password)).0;
    ScheduleAdds(env, v, username, password, u);
    WindowErased(env, w, v, rs, u);
    var end, plain := ServeAll(env, w, rs), ServeAll(env, v, Without(env, w, rs, u));
    StillIdentified(env, v.db, end.db, username, password, u);
    CancelRemoves(env, end, plain, username, password, u);
  }

  lemma ScheduleAdds(env: Env, v: World, username: string, password: string, u: UserId)
    requires Identify(env, v.db, username, password) == Some(u)
    requires u !in v.db.pending
    ensures OnlyPending(Serve(env, v, Schedule(username, password)).0, v, u)
  {
  }

  lemma CancelRemoves(env: Env, w: World, v: World, username: string, password: string, u: UserId)
    requires OnlyPending(w, v, u) && Identify(env, w.db, username, password) == Some(u)
    ensures Serve(env, w, CancelPending(username, password)) == (v, Done)
  {
    assert v.db.pending[u := w.db.pending[u]] - {u} == v.db.pending;
  }

  lemma StillIdentified(env: Env, t: Tables, t': Tables, username: string, password: string, u: UserId)
    requires Identify(env, t, username, password) == Some(u)
    requires UniqueUsernames(t') && u in t'.users && t'.users[u] == t.users[u]
    ensures Identify(env, t', username, password) == Some(u)
  {
  }
}
