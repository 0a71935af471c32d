/** The answers of requests over whole runs: who is logged in, scheduled, cancelled or refused, judged from
    the tables at that point and from what was typed. */
module RequestAnswers {
  import opened Options
  import opened Text
  import opened Usernames
  import opened AccountTables
  import opened AccountRequests
  import opened RequestRuns
  import opened AccountAnswers
  import L = RequestLaws
  import S = AccountRuns
  import P = PasswordFormat
  import Bytes

  lemma ServeNames(env: Env, w: World, r: Request)
    requires S.Sound(w) && Enabled(w, r) && NamesValid(w.db)
    ensures NamesValid(Serve(env, w, r).0.db)
  {
    if !r.RegisterUser? && !r.ProcessItem? {
      L.ServeUsers(env, w, r);
    }
  }

  lemma {:induction false} NamesStayValid(env: Env, t: Trace, n: nat)
    requires Run(env, t) && n <= |t.rs|
    ensures NamesValid(t.ws[n].db) && S.Sound(t.ws[n])
  {
    RunSound(env, t, n);
    if n == 0 {
      Begins(env, t);
    } else {
      NamesStayValid(env, t, n - 1);
      StepAt(env, t, n - 1);
      ServeNames(env, t.ws[n - 1], t.rs[n - 1]);
    }
  }

  /** The step that a request of a run takes. */
  lemma Here(env: Env, t: Trace, k: nat)
    requires Run(env, t) && k < |t.rs|
    ensures S.Sound(t.ws[k]) && NamesValid(t.ws[k].db) && Enabled(t.ws[k], t.rs[k])
    ensures Serve(env, t.ws[k], t.rs[k]) == (t.ws[k + 1], t.outs[k])
  {
    NamesStayValid(env, t, k);
    StepAt(env, t, k);
  }

  lemma FreshUnissued(w: World, token: string)
    requires S.Sound(w) && FreshToken(w, token)
    ensures Unissued(w.db, token)
  {
  }

  // ---------------------------------------------------------------- login by password

  /** A device is given, and the name and the password are those of a user whose deletion does not pend. */
  ghost predicate LoginFits(env: Env, t: Tables, creds: Credentials) {
    !Spaces(creds.deviceId) && exists u :: Fits(env, t, u, creds.username, creds.password) && u !in t.pending
  }

  /** A password login succeeds exactly for the user whose name and password were typed, when a device is
      given and no deletion of that user pends; it names that user, device and token. */
  lemma PasswordLoginIff(env: Env, t: Trace, k: nat)
    requires Run(env, t) && k < |t.rs| && t.rs[k].PasswordLogin?
    ensures var creds, w, token := t.rs[k].creds, t.ws[k], t.rs[k].token;
      && (t.outs[k].Ok? <==> LoginFits(env, w.db, creds))
      && (t.outs[k].Ok? ==>
            && Fits(env, w.db, t.outs[k].result.user, creds.username, creds.password)
            && t.outs[k].result == AuthResult(t.outs[k].result.user, TrimSpace(creds.deviceId),
                                              TrimSpace(creds.deviceName), token))
  {
    Here(env, t, k);
    var creds, w := t.rs[k].creds, t.ws[k];
    FreshUnissued(w, t.rs[k].token);
    if u :| Fits(env, w.db, u, creds.username, creds.password) {
      LoginWithPassword(env, w.db, creds, t.rs[k].token, u);
      forall v | Fits(env, w.db, v, creds.username, creds.password) ensures v == u { FitsOne(env, w.db, u, v, creds); }
    } else {
      LoginRefused(env, w.db, creds, t.rs[k].token);
    }
  }

  lemma FitsOne(env: Env, t: Tables, u: UserId, v: UserId, creds: Credentials)
    requires UniqueUsernames(t) && NamesValid(t)
    requires Fits(env, t, u, creds.username, creds.password) && Fits(env, t, v, creds.username, creds.password)
    ensures u == v
  {
    IdentifyIff(env, t, creds.username, creds.password, u);
    IdentifyIff(env, t, creds.username, creds.password, v);
  }

  /** Nobody's name and password: invalid credentials, or no device was given, and nothing changes. */
  lemma WrongPasswordRefused(env: Env, t: Trace, k: nat)
    requires Run(env, t) && k < |t.rs| && t.rs[k].PasswordLogin?
    requires NobodyFits(env, t.ws[k].db, t.rs[k].creds.username, t.rs[k].creds.password)
    ensures t.ws[k + 1] == t.ws[k]
    ensures t.outs[k] == Err(InvalidCredentials)
            || (t.outs[k] == Err(DeviceIdRequired) && Spaces(t.rs[k].creds.deviceId))
  {
    Here(env, t, k);
    LoginRefused(env, t.ws[k].db, t.rs[k].creds, t.rs[k].token);
  }

  // ---------------------------------------------------------------- schedule and cancel

  /** A schedule with u's password answers with the date thirty days ahead and gives u a new row. */
  lemma ScheduleAnswers(env: Env, t: Trace, k: nat, u: UserId)
    requires Run(env, t) && k < |t.rs| && t.rs[k].Schedule?
    requires Fits(env, t.ws[k].db, u, t.rs[k].username, t.rs[k].password)
    ensures var w, w' := t.ws[k], t.ws[k + 1];
      && t.outs[k] == Scheduled(w.now / 1_000_000 + 2_592_000)
      && w'.db == w.db.(pending := w.db.pending[u := PendingRow(w.now, w.now + 2_592_000_000_000, None)])
  {
    Here(env, t, k);
    ScheduleWithPassword(env, t.ws[k].db, t.ws[k].now, t.ws[k].now, t.rs[k].username, t.rs[k].password, u);
  }

  /** A cancel with u's password answers that the deletion is in progress exactly when u's row is started,
      and then changes nothing; it answers Done exactly when u has no row afterwards. */
  lemma CancelAnswers(env: Env, t: Trace, k: nat, u: UserId)
    requires Run(env, t) && k < |t.rs| && t.rs[k].CancelPending?
    requires Fits(env, t.ws[k].db, u, t.rs[k].username, t.rs[k].password)
    ensures var w, w' := t.ws[k], t.ws[k + 1];
      && (t.outs[k] == Err(DeletionInProgress) <==> u in w.db.pending && w.db.pending[u].startedAt.Some?)
      && (t.outs[k] == Err(DeletionInProgress) ==> w' == w)
      && (t.outs[k] == Done <==> u !in w'.db.pending)
      && (t.outs[k] == Done ==> w'.db == w.db.(pending := w.db.pending - {u}))
      && (t.outs[k] == Done || t.outs[k] == Err(DeletionInProgress))
  {
    Here(env, t, k);
    CancelWithPassword(env, t.ws[k].db, t.rs[k].username, t.rs[k].password, u);
  }

  /** Without somebody's name and password both are refused, and nothing changes. */
  lemma DeletionNeedsPassword(env: Env, t: Trace, k: nat, typed: string, password: string)
    requires Run(env, t) && k < |t.rs|
    requires t.rs[k] == Schedule(typed, password) || t.rs[k] == CancelPending(typed, password)
    requires NobodyFits(env, t.ws[k].db, typed, password)
    ensures t.outs[k] == Err(InvalidCredentials) && t.ws[k + 1] == t.ws[k]
  {
    Here(env, t, k);
    DeletionRefused(env, t.ws[k].db, t.ws[k].now, t.ws[k].now, typed, password);
  }

  /** Users whose password was not given keep their rows. */
  lemma RowNeedsPassword(env: Env, t: Trace, k: nat, typed: string, password: string, u: UserId)
    requires Run(env, t) && k < |t.rs|
    requires t.rs[k] == Schedule(typed, password) || t.rs[k] == CancelPending(typed, password)
    requires !Fits(env, t.ws[k].db, u, typed, password)
    ensures u in t.ws[k + 1].db.pending <==> u in t.ws[k].db.pending
    ensures u in t.ws[k].db.pending ==> t.ws[k + 1].db.pending[u] == t.ws[k].db.pending[u]
  {
    if v :| Fits(env, t.ws[k].db, v, typed, password) {
      if t.rs[k].Schedule? {
        ScheduleAnswers(env, t, k, v);
      } else {
        CancelAnswers(env, t, k, v);
      }
    } else {
      DeletionNeedsPassword(env, t, k, typed, password);
    }
  }

  // ---------------------------------------------------------------- registration

  /** A registration succeeds exactly when the name as written is valid and no user has it, and a password
      and a device are given; otherwise it is refused for the first of these that is wrong. */
  lemma RegisterIff(env: Env, t: Trace, k: nat, name: string)
    requires Lowering(env.lower) && Run(env, t) && k < |t.rs| && t.rs[k].RegisterUser?
    requires Spells(env.lower, t.rs[k].creds.username, name)
    ensures var creds, out, taken := t.rs[k].creds, t.outs[k], UsernameTaken(t.ws[k].db, name);
      if !Valid(name) then out == Err(InvalidUsername)
      else if Spaces(creds.password) then out == Err(PasswordRequired)
      else if Spaces(creds.deviceId) then out == Err(DeviceIdRequired)
      else if taken then out == Err(UsernameTakenError)
      else out == Ok(AuthResult(t.rs[k].id, TrimSpace(creds.deviceId), TrimSpace(creds.deviceName), t.rs[k].token))
    ensures !t.outs[k].Ok? ==> t.ws[k + 1] == t.ws[k]
  {
    Here(env, t, k);
    L.CacheMatchesTable(env, t, k);
    var w, r := t.ws[k], t.rs[k];
    FreshUnissued(w, r.token);
    FreeIff(w, name);
    if WellMade(Some(w.cache), NO_FAULTS, r.creds, name) && Free(w.db, Some(w.cache), name) {
      Registered(env, w.db, Some(w.cache), NO_FAULTS, r.creds, r.id, r.encoded, r.token, name);
    } else {
      RegisterRefused(env, w.db, Some(w.cache), NO_FAULTS, r.creds, r.id, r.encoded, r.token, name);
    }
  }

  lemma FreeIff(w: World, name: string)
    requires L.CacheExact(w)
    ensures Free(w.db, Some(w.cache), name) <==> !UsernameTaken(w.db, name)
  {
    if u :| u in w.db.users && w.db.users[u].username == name {
      assert name in NamesOf(w.db, w.db.users.Keys);
    }
  }

  // ---------------------------------------------------------------- from registration on

  /** Request i registers `name` for u, with `encoded` as the stored password. */
  ghost predicate Registers(env: Env, t: Trace, i: nat, u: UserId, name: string, encoded: string) {
    && i < |t.rs| && i < |t.outs| && t.rs[i].RegisterUser? && t.outs[i].Ok?
    && t.rs[i].id == u && t.rs[i].encoded == encoded && Spells(env.lower, t.rs[i].creds.username, name)
  }

  /** A successful registration leaves the user as written, with the name and the password it was given. */
  lemma RegisterStores(env: Env, t: Trace, i: nat, u: UserId, name: string, encoded: string)
    requires Run(env, t) && Registers(env, t, i, u, name, encoded)
    ensures u in t.ws[i + 1].db.users && Valid(name)
    ensures t.ws[i + 1].db.users == t.ws[i].db.users[u := User(name, TrimSpace(t.rs[i].creds.displayName), encoded)]
    ensures t.ws[i + 1].cache == t.ws[i].cache[name := u]
    ensures t.outs[i].result.user == u
  {
    Here(env, t, i);
    var w, r := t.ws[i], t.rs[i];
    FreshUnissued(w, r.token);
    if WellMade(Some(w.cache), NO_FAULTS, r.creds, name) && Free(w.db, Some(w.cache), name) {
      Registered(env, w.db, Some(w.cache), NO_FAULTS, r.creds, u, encoded, r.token, name);
    } else {
      RegisterRefused(env, w.db, Some(w.cache), NO_FAULTS, r.creds, u, encoded, r.token, name);
    }
  }

  /** As long as it exists, the user keeps that name and password. */
  lemma {:induction false} UserStays(env: Env, t: Trace, m: nat, n: nat, u: UserId)
    requires Run(env, t) && m <= n <= |t.rs| && u in t.ws[m].db.users && u in t.ws[n].db.users
    ensures t.ws[n].db.users[u] == t.ws[m].db.users[u]
  {
    if m < n {
      WasThere(env, t, m, n, u);
      UserStays(env, t, m, n - 1, u);
      UserStep(env, t, n - 1, u);
    }
  }

  lemma UserStep(env: Env, t: Trace, k: nat, u: UserId)
    requires Run(env, t) && k < |t.rs| && u in t.ws[k].db.users && u in t.ws[k + 1].db.users
    ensures t.ws[k + 1].db.users[u] == t.ws[k].db.users[u]
  {
    StepAt(env, t, k);
    L.UserKept(env, t.ws[k], t.rs[k], u);
  }

  lemma WasThere(env: Env, t: Trace, m: nat, n: nat, u: UserId)
    requires Run(env, t) && m < n <= |t.rs| && u in t.ws[m].db.users && u in t.ws[n].db.users
    ensures u in t.ws[n - 1].db.users
  {
    if u !in t.ws[n - 1].db.users {
      RunSound(env, t, m);
      UsedStaysId(env, t, m, n - 1, u);
      GoneForever(env, t, n - 1, n, u);
    }
  }

  lemma {:induction false} UsedStaysId(env: Env, t: Trace, m: nat, n: nat, u: UserId)
    requires Run(env, t) && m <= n <= |t.rs| && u in t.ws[m].usedIds
    ensures u in t.ws[n].usedIds
  {
    if m < n {
      UsedStaysId(env, t, m, n - 1, u);
      UsedGrows(env, t, n - 1);
    }
  }

  /** From its registration until it is deleted, a user is identified by exactly the spellings of the name
      registered together with the passwords that verify against the one registered. */
  lemma RegisteredFits(env: Env, t: Trace, i: nat, k: nat, u: UserId, name: string, encoded: string,
                       typed: string, password: string)
    requires Run(env, t) && Registers(env, t, i, u, name, encoded) && i < k <= |t.rs| && u in t.ws[k].db.users
    ensures Fits(env, t.ws[k].db, u, typed, password) <==>
            Spells(env.lower, typed, name) && !Spaces(password) && env.verify(password, encoded)
  {
    RegisterStores(env, t, i, u, name, encoded);
    UserStays(env, t, i + 1, k, u);
  }

  /** The name registered is u's alone. */
  lemma NameIsMine(env: Env, t: Trace, i: nat, k: nat, u: UserId, name: string, encoded: string,
                   typed: string, password: string)
    requires Run(env, t) && Registers(env, t, i, u, name, encoded) && i < k <= |t.rs| && u in t.ws[k].db.users
    requires Spells(env.lower, typed, name) && !env.verify(password, encoded)
    ensures NobodyFits(env, t.ws[k].db, typed, password)
  {
    RegisterStores(env, t, i, u, name, encoded);
    UserStays(env, t, i + 1, k, u);
    NamesStayValid(env, t, k);
    NormalizeIff(typed, env.lower, name);
    forall v | v in t.ws[k].db.users ensures !Fits(env, t.ws[k].db, v, typed, password) {
      NormalizeIff(typed, env.lower, t.ws[k].db.users[v].username);
    }
  }

  /** Registration to login: after a successful registration a login with a spelling of that name and with a
      device succeeds exactly for the passwords that verify against the registered one, unless the user's
      deletion pends or was carried out; it logs in that user, and a wrong password is refused. */
  lemma RegisteredLogin(env: Env, t: Trace, i: nat, k: nat, u: UserId, name: string, encoded: string)
    requires Run(env, t) && Registers(env, t, i, u, name, encoded) && i < k < |t.rs| && u in t.ws[k].db.users
    requires t.rs[k].PasswordLogin? && !Spaces(t.rs[k].creds.deviceId)
    requires Spells(env.lower, t.rs[k].creds.username, name)
    ensures var password := t.rs[k].creds.password;
      && (t.outs[k].Ok? <==> !Spaces(password) && env.verify(password, encoded) && u !in t.ws[k].db.pending)
      && (t.outs[k].Ok? ==> t.outs[k].result.user == u)
      && (!env.verify(password, encoded) ==> t.outs[k] == Err(InvalidCredentials))
  {
    var creds := t.rs[k].creds;
    RegisteredFits(env, t, i, k, u, name, encoded, creds.username, creds.password);
    PasswordLoginIff(env, t, k);
    NamesStayValid(env, t, k);
    if !env.verify(creds.password, encoded) {
      NameIsMine(env, t, i, k, u, name, encoded, creds.username, creds.password);
      WrongPasswordRefused(env, t, k);
    }
    forall v | Fits(env, t.ws[k].db, v, creds.username, creds.password) ensures v == u {
      OnlyMe(env, t, i, k, u, v, name, encoded);
    }
  }

  /** With the stored form of the program: from registration until deletion is scheduled, the passwords that
      log in are those whose key is the key of the registered password. */
  lemma PasswordsThatLogIn(env: Env, kdf: P.Kdf, t: Trace, i: nat, k: nat, u: UserId, name: string,
                           password: string, salt: seq<Bytes.byte>)
    requires forall p, e :: env.verify(p, e) <==> P.VerifyPassword(kdf, p, e) == P.Checked(true)
    requires forall p, s :: |kdf(p, s, 3, 65536, 2, 32)| == 32
    requires Run(env, t) && Registers(env, t, i, u, name, P.HashPassword(kdf, password, salt))
    requires i < k < |t.rs| && u in t.ws[k].db.users && u !in t.ws[k].db.pending
    requires t.rs[k].PasswordLogin? && !Spaces(t.rs[k].creds.deviceId)
    requires Spells(env.lower, t.rs[k].creds.username, name)
    ensures var typed := t.rs[k].creds.password;
      t.outs[k].Ok? <==> !Spaces(typed) && kdf(typed, salt, 3, 65536, 2, 32) == kdf(password, salt, 3, 65536, 2, 32)
  {
    P.HashThenVerify(kdf, password, t.rs[k].creds.password, salt);
    RegisteredLogin(env, t, i, k, u, name, P.HashPassword(kdf, password, salt));
  }

  lemma OnlyMe(env: Env, t: Trace, i: nat, k: nat, u: UserId, v: UserId, name: string, encoded: string)
    requires Run(env, t) && Registers(env, t, i, u, name, encoded) && i < k < |t.rs| && u in t.ws[k].db.users
    requires t.rs[k].PasswordLogin? && Spells(env.lower, t.rs[k].creds.username, name)
    requires Fits(env, t.ws[k].db, v, t.rs[k].creds.username, t.rs[k].creds.password)
    ensures v == u
  {
    RegisterStores(env, t, i, u, name, encoded);
    UserStays(env, t, i + 1, k, u);
    NamesStayValid(env, t, k);
    NormalizeIff(t.rs[k].creds.username, env.lower, name);
    NormalizeIff(t.rs[k].creds.username, env.lower, t.ws[k].db.users[v].username);
  }
}
