/** Runs of whole requests and worker items, and what holds over all of them. */
module RequestRuns {
  import opened Options
  import opened Text
  import opened Usernames
  import opened AccountTables
  import opened AccountRequests
  import S = AccountRuns

  type World = S.World
  type Worker = S.Worker

  datatype Request =
    | Tick(d: nat)
    | RegisterUser(creds: Credentials, id: UserId, encoded: string, token: string)
    | PasswordLogin(creds: Credentials, token: string)
    | TokenLogin(presented: string, token: string)
    | Schedule(username: string, password: string)
    | CancelPending(username: string, password: string)
    | ClaimBatch(worker: Worker, rows: set<UserId>)
    | ProcessItem(worker: Worker, user: UserId)
    | FailItem(worker: Worker, user: UserId)
    | GuardedRequest(session: Option<UserId>, before: seq<nat>, after: seq<nat>)  // behind the auth middleware

  /** A drawn session token: hexadecimal, so free of spaces, and never drawn before. */
  ghost predicate FreshToken(w: World, token: string) {
    && token != "" && (forall i :: 0 <= i < |token| ==> !IsSpace(token[i]))
    && Sha256(token) !in w.usedHashes
  }

  ghost predicate Enabled(w: World, r: Request) {
    match r
    case RegisterUser(_, id, _, token) => id !in w.usedIds && FreshToken(w, token)
    case PasswordLogin(_, token) => FreshToken(w, token)
    case TokenLogin(_, token) => FreshToken(w, token)
    case ClaimBatch(worker, rows) =>
      IsBatch(w.db, w.now, rows, BATCH) && forall u :: (worker, u) !in w.held
    case ProcessItem(worker, user) => (worker, user) in w.held
    case FailItem(worker, user) => (worker, user) in w.held
    case _ => true
  }

  predicate Drew(r: Response) {
    r.Ok? || r == Err(Internal)
  }

  ghost function Used(w: World, r: Response, token: string): set<Hash> {
    w.usedHashes + if Drew(r) then {Sha256(token)} else {}
  }

  ghost function Serve(env: Env, w: World, r: Request): (World, Response) {
    match r
    case Tick(d) => (w.(now := w.now + d), Done)
    case RegisterUser(creds, id, encoded, token) =>
      var o := Register(env, w.db, Some(w.cache), NO_FAULTS, creds, id, encoded, token);
      (w.(db := o.db, cache := o.cache.value, usedHashes := Used(w, o.response, token),
          usedIds := w.usedIds + if Drew(o.response) then {id} else {}), o.response)
    case PasswordLogin(creds, token) =>
      var o := LoginByCredentials(env, w.db, creds, token);
      (w.(db := o.db, usedHashes := Used(w, o.response, token)), o.response)
    case TokenLogin(presented, token) =>
      var o := LoginByToken(w.db, w.now, presented, token);
      (w.(db := o.db, usedHashes := Used(w, o.response, token)), o.response)
    case Schedule(username, password) =>
      var o := ScheduleDeletion(env, w.db, w.now, w.now, username, password);
      (w.(db := o.db), o.response)
    case CancelPending(username, password) =>
      var o := CancelDeletion(env, w.db, username, password);
      (w.(db := o.db), o.response)
    case ClaimBatch(worker, rows) =>
      (w.(db := Claim(w.db, rows, w.now), held := w.held + set u | u in rows :: (worker, u)), Done)
    case ProcessItem(worker, user) =>
      if user in w.db.users then
        (w.(db := DeleteUser(w.db, user), held := w.held - {(worker, user)},
            cache := DropName(env, w.cache, w.db.users[user].username)), Done)
      else
        (w.(db := DeletePending(w.db, user), held := w.held - {(worker, user)},
            absent := w.absent - {(worker, user)}), Done)
    case FailItem(worker, user) => (w.(held := w.held - {(worker, user)}), Done)
    case GuardedRequest(session, before, after) => (w, Handled(Guarded(w.db, session, before, after)))
  }

  // ---------------------------------------------------------------- requests are statements

  ghost predicate Steps(w: World, es: seq<S.Event>, w': World)
    decreases |es|
  {
    if es == [] then w' == w
    else S.Enabled(w, es[0]) && Steps(S.Apply(w, es[0]), es[1..], w')
  }

  lemma One(w: World, e: S.Event)
    requires S.Enabled(w, e)
    ensures Steps(w, [e], S.Apply(w, e))
  {
  }

  lemma Two(w: World, e: S.Event, f: S.Event)
    requires S.Enabled(w, e) && S.Enabled(S.Apply(w, e), f)
    ensures Steps(w, [e, f], S.Apply(S.Apply(w, e), f))
  {
    One(S.Apply(w, e), f);
    assert [e, f][1..] == [f];
  }

  /** The statements that a request executes in a given world. */
  ghost function Path(env: Env, w: World, r: Request): seq<S.Event> {
    match r
    case Tick(d) => [S.Tick(d)]
    case RegisterUser(creds, id, encoded, token) =>
      if RegisterRefusal(env, w.db, Some(w.cache), NO_FAULTS, creds).Some? || id in w.db.users then []
      else
        var name := NormalizeUsername(creds.username, env.lower);
        [S.NewUser(id, User(name, TrimSpace(creds.displayName), encoded)),
         S.CacheStep(w.cache[name := id]),
         S.WriteToken(id, TrimSpace(creds.deviceId), TrimSpace(creds.deviceName), Sha256(token))]
    case PasswordLogin(creds, token) =>
      var o := LoginByCredentials(env, w.db, creds, token);
      if !Drew(o.response) then []
      else [S.WriteToken(Identify(env, w.db, creds.username, creds.password).value,
                         TrimSpace(creds.deviceId), TrimSpace(creds.deviceName), Sha256(token))]
    case TokenLogin(presented, token) =>
      if !Drew(LoginByToken(w.db, w.now, presented, token).response) then []
      else [S.Rotate(RowOf(w, presented), Sha256(token))]
    case Schedule(username, password) =>
      var u := Identify(env, w.db, username, password);
      if u.None? then [] else [S.ScheduleRow(u.value, w.now)]
    case CancelPending(username, password) =>
      var u := Identify(env, w.db, username, password);
      if u.None? then [] else [S.CancelRow(u.value)]
    case ClaimBatch(worker, rows) => [S.ClaimRows(worker, rows)]
    case ProcessItem(worker, user) =>
      [S.RemoveUser(worker, user),
       if user in w.db.users then S.CacheStep(DropName(env, w.cache, w.db.users[user].username))
       else S.ClearRow(worker, user)]
    case FailItem(worker, user) => [S.LoseItem(worker, user)]
    case GuardedRequest(_, _, _) => []
  }

  /** The row a presented token selects. */
  ghost function RowOf(w: World, presented: string): TokenId {
    var ks := Accepting(w.db, w.now, Sha256(TrimSpace(presented)));
    if ks == {} then 0 else var k :| k in ks; k
  }

  lemma LoginByTokenRow(w: World, presented: string, token: string)
    requires S.Sound(w) && Accepting(w.db, w.now, Sha256(TrimSpace(presented))) != {}
    requires TrimSpace(presented) != "" && Sha256(token) !in w.usedHashes
    ensures var k := RowOf(w, presented); var row := w.db.tokens[k];
      && k in w.db.tokens && row.hash == Sha256(TrimSpace(presented))
      && LoginByToken(w.db, w.now, presented, token) ==
         if row.user in w.db.pending then Outcome(w.db, None, Err(AccountPendingDeletion))
         else Outcome(RotateToken(w.db, k, Sha256(token)), None,
                      Ok(AuthResult(row.user, row.device, row.deviceName, token)))
  {
  }

  lemma RegisterIsStatements(env: Env, w: World, r: Request)
    requires S.Sound(w) && Enabled(w, r) && r.RegisterUser?
    ensures Steps(w, Path(env, w, r), Serve(env, w, r).0)
  {
    var p := Path(env, w, r);
    if p != [] {
      var w1 := S.Apply(w, p[0]);
      Two(w1, p[1], p[2]);
      assert p[1..] == [p[1], p[2]];
      assert Serve(env, w, r).0 == S.Apply(S.Apply(w1, p[1]), p[2]);
    }
  }

  lemma ItemIsStatements(env: Env, w: World, r: Request)
    requires S.Sound(w) && Enabled(w, r) && r.ProcessItem?
    ensures Steps(w, Path(env, w, r), Serve(env, w, r).0)
  {
    var p := Path(env, w, r);
    Two(w, p[0], p[1]);
    assert Serve(env, w, r).0 == S.Apply(S.Apply(w, p[0]), p[1]) by {
      if r.user !in w.db.users {
        NoCascade(w.db, r.user);
      }
    }
  }

  lemma PasswordIsStatements(env: Env, w: World, r: Request)
    requires S.Sound(w) && Enabled(w, r) && r.PasswordLogin?
    ensures Steps(w, Path(env, w, r), Serve(env, w, r).0)
  {
    var p := Path(env, w, r);
    if p != [] {
      One(w, p[0]);
    }
  }

  lemma TokenIsStatements(env: Env, w: World, r: Request)
    requires S.Sound(w) && Enabled(w, r) && r.TokenLogin?
    ensures Steps(w, Path(env, w, r), Serve(env, w, r).0)
  {
    var p := Path(env, w, r);
    if p != [] {
      LoginByTokenRow(w, r.presented, r.token);
      One(w, p[0]);
    }
  }

  lemma DeletionIsStatements(env: Env, w: World, r: Request)
    requires r.Schedule? || r.CancelPending?
    ensures Steps(w, Path(env, w, r), Serve(env, w, r).0)
  {
    var p := Path(env, w, r);
    if p != [] {
      One(w, p[0]);
    }
  }

  /** Every request is a sequence of statements, each allowed at the point it runs, so what holds
      in all statement-level runs holds in all request-level runs. */
  lemma RequestIsStatements(env: Env, w: World, r: Request)
    requires S.Sound(w) && Enabled(w, r)
    ensures Steps(w, Path(env, w, r), Serve(env, w, r).0)
  {
    match r
    case Tick(d) => One(w, S.Tick(d));
    case RegisterUser(_, _, _, _) => RegisterIsStatements(env, w, r);
    case PasswordLogin(_, _) => PasswordIsStatements(env, w, r);
    case TokenLogin(_, _) => TokenIsStatements(env, w, r);
    case Schedule(_, _) => DeletionIsStatements(env, w, r);
    case CancelPending(_, _) => DeletionIsStatements(env, w, r);
    case ClaimBatch(worker, rows) => One(w, S.ClaimRows(worker, rows));
    case ProcessItem(_, _) => ItemIsStatements(env, w, r);
    case FailItem(worker, user) => One(w, S.LoseItem(worker, user));
    case GuardedRequest(_, _, _) =>
  }

  // ---------------------------------------------------------------- runs

  datatype Trace = Trace(ws: seq<World>, rs: seq<Request>, outs: seq<Response>)

  ghost predicate Step(env: Env, w: World, r: Request, out: Response, w': World) {
    Enabled(w, r) && Serve(env, w, r) == (w', out)
  }

  /** The first n requests of the trace, each served in the world its predecessor left. */
  ghost predicate RunTo(env: Env, t: Trace, n: nat)
    requires |t.outs| == |t.rs| && |t.ws| == |t.rs| + 1 && n <= |t.rs|
  {
    if n == 0 then t.ws[0] == S.START
    else RunTo(env, t, n - 1) && Step(env, t.ws[n - 1], t.rs[n - 1], t.outs[n - 1], t.ws[n])
  }

  ghost predicate Run(env: Env, t: Trace) {
    |t.outs| == |t.rs| && |t.ws| == |t.rs| + 1 && RunTo(env, t, |t.rs|)
  }

  lemma {:induction false} RunBegins(env: Env, t: Trace, n: nat)
    requires |t.outs| == |t.rs| && |t.ws| == |t.rs| + 1 && n <= |t.rs| && RunTo(env, t, n)
    ensures t.ws[0] == S.START
    ensures forall k :: 0 <= k < n ==> Step(env, t.ws[k], t.rs[k], t.outs[k], t.ws[k + 1])
  {
    if n > 0 {
      RunBegins(env, t, n - 1);
    }
  }

  lemma Begins(env: Env, t: Trace)
    requires Run(env, t)
    ensures t.ws[0] == S.START
  {
    RunBegins(env, t, |t.rs|);
  }

  lemma StepAt(env: Env, t: Trace, k: nat)
    requires Run(env, t) && k < |t.rs|
    ensures Step(env, t.ws[k], t.rs[k], t.outs[k], t.ws[k + 1])
  {
    RunBegins(env, t, |t.rs|);
  }

  lemma {:induction false} ExtendSteps(h: S.History, es: seq<S.Event>, w': World) returns (g: S.History)
    requires S.Run(h) && Steps(h.ws[|h.es|], es, w')
    ensures S.Run(g) && g.es == h.es + es && h.ws <= g.ws && g.ws[|g.es|] == w'
    decreases |es|
  {
    if es == [] {
      g := h;
    } else {
      var h1 := S.Extend(h, es[0]);
      g := ExtendSteps(h1, es[1..], w');
      assert [es[0]] + es[1..] == es;
    }
  }

  lemma {:induction false} StepsSound(w: World, es: seq<S.Event>, w': World)
    requires S.Sound(w) && Steps(w, es, w')
    ensures S.Sound(w')
    decreases |es|
  {
    if es != [] {
      S.StepSound(w, es[0]);
      StepsSound(S.Apply(w, es[0]), es[1..], w');
    }
  }

  lemma ServeSound(env: Env, w: World, r: Request)
    requires S.Sound(w) && Enabled(w, r)
    ensures S.Sound(Serve(env, w, r).0)
  {
    RequestIsStatements(env, w, r);
    StepsSound(w, Path(env, w, r), Serve(env, w, r).0);
  }

  lemma {:induction false} RunSound(env: Env, t: Trace, n: nat)
    requires Run(env, t) && n <= |t.rs|
    ensures S.Sound(t.ws[n])
  {
    if n == 0 {
      Begins(env, t);
    } else {
      RunSound(env, t, n - 1);
      StepAt(env, t, n - 1);
      ServeSound(env, t.ws[n - 1], t.rs[n - 1]);
    }
  }

  /** The statements of each request of a run. */
  ghost function Paths(env: Env, t: Trace): (ps: seq<seq<S.Event>>)
    requires |t.ws| == |t.rs| + 1
    ensures |ps| == |t.rs| && forall i :: 0 <= i < |ps| ==> ps[i] == Path(env, t.ws[i], t.rs[i])
  {
    seq(|t.rs|, i requires 0 <= i < |t.rs| => Path(env, t.ws[i], t.rs[i]))
  }

  /** The first n of them, one after the other. */
  ghost function Opened(ps: seq<seq<S.Event>>, n: nat): seq<S.Event>
    requires n <= |ps|
  {
    if n == 0 then [] else Opened(ps, n - 1) + ps[n - 1]
  }

  /** The worlds of a history pass through ws[0], ..., ws[n], one between any two sequences. */
  ghost predicate Passes(hws: seq<World>, ws: seq<World>, ps: seq<seq<S.Event>>, n: nat)
    requires n <= |ps| < |ws|
  {
    && |Opened(ps, n)| < |hws| && hws[|Opened(ps, n)|] == ws[n]
    && (n > 0 ==> Passes(hws, ws, ps, n - 1))
  }

  lemma {:induction false} PassesAt(hws: seq<World>, ws: seq<World>, ps: seq<seq<S.Event>>, n: nat, i: nat)
    requires i <= n <= |ps| < |ws| && Passes(hws, ws, ps, n)
    ensures |Opened(ps, i)| < |hws| && hws[|Opened(ps, i)|] == ws[i]
  {
    if i < n {
      PassesAt(hws, ws, ps, n - 1, i);
    }
  }

  lemma {:induction false} PassesOn(hws: seq<World>, more: seq<World>, ws: seq<World>, ps: seq<seq<S.Event>>, n: nat)
    requires n <= |ps| < |ws| && Passes(hws, ws, ps, n) && hws <= more
    ensures Passes(more, ws, ps, n)
  {
    if n > 0 {
      PassesOn(hws, more, ws, ps, n - 1);
    }
  }

  /** History h executes the first n sequences of statements and passes through the worlds ws. */
  ghost predicate Executes(h: S.History, ws: seq<World>, ps: seq<seq<S.Event>>, n: nat)
    requires n <= |ps| < |ws|
  {
    S.Run(h) && h.es == Opened(ps, n) && Passes(h.ws, ws, ps, n)
  }

  lemma {:induction false} Glue(ws: seq<World>, ps: seq<seq<S.Event>>, n: nat) returns (h: S.History)
    requires n <= |ps| < |ws| && ws[0] == S.START
    requires forall i :: 0 <= i < n ==> Steps(ws[i], ps[i], ws[i + 1])
    ensures Executes(h, ws, ps, n)
  {
    if n == 0 {
      h := S.History([S.START], []);
    } else {
      var g := Glue(ws, ps, n - 1);
      h := ExtendSteps(g, ps[n - 1], ws[n]);
      PassesOn(g.ws, h.ws, ws, ps, n - 1);
    }
  }

  /** Refinement: every request-level run is the statement-level run of its requests opened up, and
      passes through the same worlds where one request ends and the next begins. */
  lemma Refines(env: Env, t: Trace) returns (h: S.History)
    requires Run(env, t)
    ensures Executes(h, t.ws, Paths(env, t), |t.rs|)
  {
    forall k | 0 <= k < |t.rs| ensures Steps(t.ws[k], Paths(env, t)[k], t.ws[k + 1]) {
      RunSound(env, t, k);
      StepAt(env, t, k);
      RequestIsStatements(env, t.ws[k], t.rs[k]);
    }
    Begins(env, t);
    h := Glue(t.ws, Paths(env, t), |t.rs|);
  }

  lemma ServeUsed(env: Env, w: World, r: Request)
    requires Enabled(w, r)
    ensures var (w', out) := Serve(env, w, r);
      && w.usedHashes <= w'.usedHashes && w.usedIds <= w'.usedIds
      && (out.Ok? ==> Sha256(out.result.token) !in w.usedHashes && Sha256(out.result.token) in w'.usedHashes)
      && (forall u :: u in w'.db.users && u !in w.db.users ==> u !in w.usedIds)
  {
  }

  lemma UsedGrows(env: Env, t: Trace, k: nat)
    requires Run(env, t) && k < |t.rs|
    ensures t.ws[k].usedHashes <= t.ws[k + 1].usedHashes && t.ws[k].usedIds <= t.ws[k + 1].usedIds
    ensures t.outs[k].Ok? ==>
      Sha256(t.outs[k].result.token) !in t.ws[k].usedHashes && Sha256(t.outs[k].result.token) in t.ws[k + 1].usedHashes
    ensures forall u :: u in t.ws[k + 1].db.users && u !in t.ws[k].db.users ==> u !in t.ws[k].usedIds
  {
    StepAt(env, t, k);
    ServeUsed(env, t.ws[k], t.rs[k]);
  }

  lemma {:induction false} UsedStays(env: Env, t: Trace, m: nat, n: nat, hash: Hash)
    requires Run(env, t) && m <= n <= |t.rs| && hash in t.ws[m].usedHashes
    ensures hash in t.ws[n].usedHashes
  {
    if m < n {
      UsedStays(env, t, m, n - 1, hash);
      UsedGrows(env, t, n - 1);
    }
  }

  lemma {:induction false} GoneForever(env: Env, t: Trace, m: nat, n: nat, u: UserId)
    requires Run(env, t) && m <= n <= |t.rs|
    requires u in t.ws[m].usedIds && u !in t.ws[m].db.users
    ensures u in t.ws[n].usedIds && u !in t.ws[n].db.users
  {
    if m < n {
      GoneForever(env, t, m, n - 1, u);
      UsedGrows(env, t, n - 1);
    }
  }

  // ---------------------------------------------------------------- token chain

  ghost predicate Held(w: World, hash: Hash) {
    exists k :: k in w.db.tokens && w.db.tokens[k].hash == hash
  }

  /** A token row is as it was, or exactly as the response announced. */
  ghost predicate OldOrAnnounced(w: World, out: Response, k: TokenId, row: TokenRow) {
    || (k in w.db.tokens && row == w.db.tokens[k])
    || (out == Ok(AuthResult(row.user, row.device, row.deviceName, row.hash.token)) && row.hash !in w.usedHashes)
  }

  lemma RegisterTokens(env: Env, w: World, r: Request, k: TokenId)
    requires Enabled(w, r) && r.RegisterUser? && k in Serve(env, w, r).0.db.tokens
    ensures OldOrAnnounced(w, Serve(env, w, r).1, k, Serve(env, w, r).0.db.tokens[k])
  {
    if RegisterRefusal(env, w.db, Some(w.cache), NO_FAULTS, r.creds).None? && r.id !in w.db.users {
      var name := NormalizeUsername(r.creds.username, env.lower);
      var t1 := InsertUser(w.db, r.id, User(name, TrimSpace(r.creds.displayName), r.encoded));
      IssueTokens(t1, Some(w.cache), r.id, TrimSpace(r.creds.deviceId), TrimSpace(r.creds.deviceName), r.token, k);
    }
  }

  lemma PasswordTokens(env: Env, w: World, r: Request, k: TokenId)
    requires Enabled(w, r) && r.PasswordLogin? && k in Serve(env, w, r).0.db.tokens
    ensures OldOrAnnounced(w, Serve(env, w, r).1, k, Serve(env, w, r).0.db.tokens[k])
  {
    if Drew(LoginByCredentials(env, w.db, r.creds, r.token).response) {
      IssueTokens(w.db, None, Identify(env, w.db, r.creds.username, r.creds.password).value,
                  TrimSpace(r.creds.deviceId), TrimSpace(r.creds.deviceName), r.token, k);
    }
  }

  lemma RotationTokens(env: Env, w: World, r: Request, k: TokenId)
    requires S.Sound(w) && Enabled(w, r) && r.TokenLogin? && k in Serve(env, w, r).0.db.tokens
    ensures OldOrAnnounced(w, Serve(env, w, r).1, k, Serve(env, w, r).0.db.tokens[k])
  {
    if Accepting(w.db, w.now, Sha256(TrimSpace(r.presented))) != {} && TrimSpace(r.presented) != "" {
      LoginByTokenRow(w, r.presented, r.token);
    }
  }

  /** Where token rows come from. */
  lemma ServeTokens(env: Env, w: World, r: Request, k: TokenId)
    requires S.Sound(w) && Enabled(w, r) && k in Serve(env, w, r).0.db.tokens
    ensures OldOrAnnounced(w, Serve(env, w, r).1, k, Serve(env, w, r).0.db.tokens[k])
  {
    if r.RegisterUser? {
      RegisterTokens(env, w, r, k);
    } else if r.PasswordLogin? {
      PasswordTokens(env, w, r, k);
    } else if r.TokenLogin? {
      RotationTokens(env, w, r, k);
    }
  }

  lemma IssueTokens(t: Tables, cache: Option<Cache>, user: UserId, device: string, deviceName: string,
                    token: string, k: TokenId)
    requires k in IssueToken(t, cache, user, device, deviceName, token).db.tokens
    ensures var o := IssueToken(t, cache, user, device, deviceName, token); var row := o.db.tokens[k];
      || (k in t.tokens && row == t.tokens[k])
      || (o.response == Ok(AuthResult(user, device, deviceName, token))
          && row.user == user && row.device == device && row.deviceName == deviceName && row.hash == Sha256(token))
  {
  }

  lemma RowOrigin(env: Env, t: Trace, n: nat, k: TokenId)
    requires Run(env, t) && 0 < n <= |t.rs| && k in t.ws[n].db.tokens
    ensures OldOrAnnounced(t.ws[n - 1], t.outs[n - 1], k, t.ws[n].db.tokens[k])
  {
    StepAt(env, t, n - 1);
    RunSound(env, t, n - 1);
    ServeTokens(env, t.ws[n - 1], t.rs[n - 1], k);
  }

  /** Request k of the run hands out `token`. */
  ghost predicate Issues(t: Trace, k: nat, token: string) {
    k < |t.outs| && t.outs[k].Ok? && t.outs[k].result.token == token
  }

  /** Each token row stems from the response that handed its token out, for that user and device. */
  lemma {:induction false} IssuedBy(env: Env, t: Trace, n: nat, k: TokenId) returns (i: nat)
    requires Run(env, t) && n <= |t.rs| && k in t.ws[n].db.tokens
    ensures i < n && i < |t.outs| && t.outs[i].Ok?
    ensures var row := t.ws[n].db.tokens[k];
      t.outs[i].result == AuthResult(row.user, row.device, row.deviceName, row.hash.token)
  {
    Begins(env, t);
    RowOrigin(env, t, n, k);
    if k in t.ws[n - 1].db.tokens && t.ws[n].db.tokens[k] == t.ws[n - 1].db.tokens[k] {
      i := IssuedBy(env, t, n - 1, k);
    } else {
      i := n - 1;
    }
  }

  /** A used hash that no row carries never comes back. */
  lemma {:induction false} SpentForever(env: Env, t: Trace, m: nat, n: nat, hash: Hash)
    requires Run(env, t) && m <= n <= |t.rs|
    requires hash in t.ws[m].usedHashes && !Held(t.ws[m], hash)
    ensures hash in t.ws[n].usedHashes && !Held(t.ws[n], hash)
  {
    if m < n {
      SpentForever(env, t, m, n - 1, hash);
      UsedGrows(env, t, n - 1);
      forall k | k in t.ws[n].db.tokens ensures t.ws[n].db.tokens[k].hash != hash {
        RowOrigin(env, t, n, k);
      }
    }
  }

  /** Request k is a successful login with `token`. */
  ghost predicate Accepts(t: Trace, k: nat, token: string)
    requires |t.outs| == |t.rs|
  {
    k < |t.rs| && t.rs[k].TokenLogin? && TrimSpace(t.rs[k].presented) == token && t.outs[k].Ok?
  }

  lemma AcceptSpends(env: Env, w: World, r: Request)
    requires S.Sound(w) && Enabled(w, r) && r.TokenLogin? && Serve(env, w, r).1.Ok?
    ensures var hash := Sha256(TrimSpace(r.presented)); var w' := Serve(env, w, r).0;
      Held(w, hash) && hash in w'.usedHashes && !Held(w', hash)
  {
    LoginByTokenRow(w, r.presented, r.token);
  }

  lemma AcceptedSpent(env: Env, t: Trace, k: nat, token: string)
    requires Run(env, t) && Accepts(t, k, token)
    ensures Held(t.ws[k], Sha256(token))
    ensures Sha256(token) in t.ws[k + 1].usedHashes && !Held(t.ws[k + 1], Sha256(token))
  {
    StepAt(env, t, k);
    RunSound(env, t, k);
    AcceptSpends(env, t.ws[k], t.rs[k]);
  }

  /** Each token is accepted at most once. */
  lemma TokenAcceptedOnce(env: Env, t: Trace, i: nat, k: nat, token: string)
    requires Run(env, t) && Accepts(t, i, token) && Accepts(t, k, token)
    ensures i == k
  {
    if i != k {
      var a, b := if i < k then i else k, if i < k then k else i;
      AcceptedSpent(env, t, a, token);
      AcceptedSpent(env, t, b, token);
      SpentForever(env, t, a + 1, b, Sha256(token));
    }
  }

  /** An accepted token was handed out earlier, and logs in the user and device it was handed out
      for; that user exists and has no deletion pending. */
  lemma TokenYieldsItsOwner(env: Env, t: Trace, k: nat, token: string) returns (i: nat)
    requires Run(env, t) && Accepts(t, k, token)
    ensures i < k && Issues(t, i, token)
    ensures t.outs[k].result.user == t.outs[i].result.user
    ensures t.outs[k].result.device == t.outs[i].result.device
    ensures t.outs[k].result.user in t.ws[k].db.users && t.outs[k].result.user !in t.ws[k].db.pending
  {
    StepAt(env, t, k);
    RunSound(env, t, k);
    LoginByTokenRow(t.ws[k], t.rs[k].presented, t.rs[k].token);
    i := IssuedBy(env, t, k, RowOf(t.ws[k], t.rs[k].presented));
  }

  /** A token is handed out by one request only. */
  lemma IssuedOnce(env: Env, t: Trace, i: nat, k: nat, token: string)
    requires Run(env, t) && Issues(t, i, token) && Issues(t, k, token)
    ensures i == k
  {
    if i != k {
      var a, b := if i < k then i else k, if i < k then k else i;
      UsedGrows(env, t, a);
      UsedGrows(env, t, b);
      UsedStays(env, t, a + 1, b, Sha256(token));
    }
  }

  /** No token handed out for a user is accepted once that user has been deleted. */
  lemma DeletedUsersTokensRefused(env: Env, t: Trace, i: nat, m: nat, k: nat, token: string)
    requires Run(env, t) && Issues(t, i, token) && m <= k < |t.rs|
    requires t.outs[i].result.user in t.ws[m].usedIds && t.outs[i].result.user !in t.ws[m].db.users
    ensures !Accepts(t, k, token)
  {
    if Accepts(t, k, token) {
      var j := TokenYieldsItsOwner(env, t, k, token);
      IssuedOnce(env, t, i, j, token);
      GoneForever(env, t, m, k, t.outs[i].result.user);
    }
  }
}
