/** What each request answers and changes, said of the rows of the tables and of what was typed. */
module AccountAnswers {
  import opened Options
  import opened Text
  import opened Usernames
  import opened AccountTables
  import opened AccountRequests

  /** Username and password are those of u: the name is a spelling of u's, and the password, which is not
      blank, verifies against u's stored hash. */
  ghost predicate Fits(env: Env, t: Tables, u: UserId, typed: string, password: string) {
    && u in t.users && Spells(env.lower, typed, t.users[u].username)
    && !Spaces(password) && env.verify(password, t.users[u].passwordHash)
  }

  ghost predicate NobodyFits(env: Env, t: Tables, typed: string, password: string) {
    forall u :: u in t.users ==> !Fits(env, t, u, typed, password)
  }

  /** Every stored username is valid. */
  ghost predicate NamesValid(t: Tables) {
    forall u :: u in t.users ==> Valid(t.users[u].username)
  }

  /** No row has the hash of a token. */
  ghost predicate Unissued(t: Tables, token: string) {
    forall k :: k in t.tokens ==> t.tokens[k].hash != Sha256(token)
  }

  /** The credential check finds exactly the user whose name and password were typed. */
  lemma IdentifyIff(env: Env, t: Tables, typed: string, password: string, u: UserId)
    requires UniqueUsernames(t) && NamesValid(t)
    ensures Identify(env, t, typed, password) == Some(u) <==> Fits(env, t, u, typed, password)
  {
    TrimBlank(password);
    if u in t.users {
      NormalizeIff(typed, env.lower, t.users[u].username);
    }
  }

  lemma IdentifyNobody(env: Env, t: Tables, typed: string, password: string)
    requires UniqueUsernames(t) && NamesValid(t)
    ensures Identify(env, t, typed, password).None? <==> NobodyFits(env, t, typed, password)
  {
    var i := Identify(env, t, typed, password);
    if i.Some? {
      IdentifyIff(env, t, typed, password, i.value);
    } else {
      forall u | u in t.users ensures !Fits(env, t, u, typed, password) { IdentifyIff(env, t, typed, password, u); }
    }
  }

  /** From t to t' the device got a token of the user's, and the rows of other devices stayed. */
  ghost predicate Issued(t: Tables, t': Tables, user: UserId, device: string, deviceName: string, token: string) {
    && (exists k :: k in t'.tokens && t'.tokens[k].device == device)
    && (forall k :: k in t'.tokens && t'.tokens[k].device == device ==>
          t'.tokens[k] == TokenRow(user, Sha256(token), device, deviceName, None, None))
    && (forall k :: k in t'.tokens && t'.tokens[k].device != device ==> k in t.tokens && t.tokens[k] == t'.tokens[k])
    && (forall k :: k in t.tokens && t.tokens[k].device != device ==> k in t'.tokens && t'.tokens[k] == t.tokens[k])
  }

  lemma UpsertIssues(t: Tables, user: UserId, device: string, deviceName: string, token: string)
    requires Consistent(t) && Unissued(t, token) && user in t.users
    ensures TokenAdmitted(t, user, device, Sha256(token))
    ensures Issued(t, UpsertToken(t, user, device, deviceName, Sha256(token)), user, device, deviceName, token)
  {
    var t' := UpsertToken(t, user, device, deviceName, Sha256(token));
    if HasDevice(t, device) {
      var k :| k in t.tokens && t.tokens[k].device == device;
      assert t'.tokens[k].device == device;
    } else {
      assert t'.tokens[t.nextToken].device == device;
    }
  }

  // ---------------------------------------------------------------- login by password

  /** The right password of u: u gets the token, unless the device is missing or u's deletion pends. */
  lemma LoginWithPassword(env: Env, t: Tables, creds: Credentials, token: string, u: UserId)
    requires Consistent(t) && NamesValid(t) && Unissued(t, token)
    requires Fits(env, t, u, creds.username, creds.password)
    ensures var o := LoginByCredentials(env, t, creds, token);
      && (Spaces(creds.deviceId) ==> o == Outcome(t, None, Err(DeviceIdRequired)))
      && (!Spaces(creds.deviceId) && u in t.pending ==> o == Outcome(t, None, Err(AccountPendingDeletion)))
      && (!Spaces(creds.deviceId) && u !in t.pending ==>
            o.response == Ok(AuthResult(u, TrimSpace(creds.deviceId), TrimSpace(creds.deviceName), token))
            && o.db.users == t.users && o.db.pending == t.pending
            && Issued(t, o.db, u, TrimSpace(creds.deviceId), TrimSpace(creds.deviceName), token))
  {
    IdentifyIff(env, t, creds.username, creds.password, u);
    TrimBlank(creds.password);
    TrimBlank(creds.deviceId);
    UpsertIssues(t, u, TrimSpace(creds.deviceId), TrimSpace(creds.deviceName), token);
  }

  /** Anything else is refused, and changes nothing. */
  lemma LoginRefused(env: Env, t: Tables, creds: Credentials, token: string)
    requires Consistent(t) && NamesValid(t) && NobodyFits(env, t, creds.username, creds.password)
    ensures var o := LoginByCredentials(env, t, creds, token);
      && o.db == t && o.response.Err?
      && (o.response.error.InvalidCredentials? || (o.response.error.DeviceIdRequired? && Spaces(creds.deviceId)))
  {
    IdentifyNobody(env, t, creds.username, creds.password);
    TrimBlank(creds.deviceId);
  }

  // ---------------------------------------------------------------- schedule and cancel

  /** The row is due 2,592,000 seconds, thirty days, after the clock reading. */
  lemma ScheduleWithPassword(env: Env, t: Tables, readAt: Time, now: Time, typed: string, password: string, u: UserId)
    requires Consistent(t) && NamesValid(t) && Fits(env, t, u, typed, password)
    ensures ScheduleDeletion(env, t, readAt, now, typed, password) ==
      Outcome(t.(pending := t.pending[u := PendingRow(now, readAt + 2_592_000_000_000, None)]), None,
              Scheduled(readAt / 1_000_000 + 2_592_000))
  {
    IdentifyIff(env, t, typed, password, u);
    assert (readAt + 2_592_000 * 1_000_000) / 1_000_000 == readAt / 1_000_000 + 2_592_000;
  }

  /** A started deletion is reported as in progress and stays; otherwise there is no row afterwards. */
  lemma CancelWithPassword(env: Env, t: Tables, typed: string, password: string, u: UserId)
    requires Consistent(t) && NamesValid(t) && Fits(env, t, u, typed, password)
    ensures var o := CancelDeletion(env, t, typed, password);
      && (o.response == Err(DeletionInProgress) <==> u in t.pending && t.pending[u].startedAt.Some?)
      && (o.response == Err(DeletionInProgress) ==> o.db == t)
      && (o.response == Done <==> u !in o.db.pending)
      && (o.response == Done ==> o.db == t.(pending := t.pending - {u}))
      && (o.response == Done || o.response == Err(DeletionInProgress))
  {
    IdentifyIff(env, t, typed, password, u);
  }

  lemma DeletionRefused(env: Env, t: Tables, readAt: Time, now: Time, typed: string, password: string)
    requires Consistent(t) && NamesValid(t) && NobodyFits(env, t, typed, password)
    ensures ScheduleDeletion(env, t, readAt, now, typed, password) == Outcome(t, None, Err(InvalidCredentials))
    ensures CancelDeletion(env, t, typed, password) == Outcome(t, None, Err(InvalidCredentials))
  {
    IdentifyNobody(env, t, typed, password);
  }

  // ---------------------------------------------------------------- login by token

  /** The token of a row is rotated for the row's user and device, unless the user's deletion pends. */
  lemma LoginWithToken(t: Tables, now: Time, presented: string, token: string, k: TokenId)
    requires Consistent(t) && Unissued(t, token) && !Spaces(presented)
    requires k in t.tokens && t.tokens[k].hash == Sha256(TrimSpace(presented))
    ensures var o, row := LoginByToken(t, now, presented, token), t.tokens[k];
      if row.user in t.pending then o == Outcome(t, None, Err(AccountPendingDeletion))
      else o == Outcome(t.(tokens := t.tokens[k := row.(hash := Sha256(token))]), None,
                        Ok(AuthResult(row.user, row.device, row.deviceName, token)))
  {
    TrimBlank(presented);
    assert Accepting(t, now, Sha256(TrimSpace(presented))) == {k};
  }

  /** Anything else is refused, and changes nothing. */
  lemma TokenRefused(t: Tables, now: Time, presented: string, token: string)
    requires Spaces(presented) || Unissued(t, TrimSpace(presented))
    ensures LoginByToken(t, now, presented, token) ==
            Outcome(t, None, Err(if Spaces(presented) then SessionTokenNeeded else InvalidToken))
  {
    TrimBlank(presented);
    if !Spaces(presented) {
      assert Accepting(t, now, Sha256(TrimSpace(presented))) == {};
    }
  }

  // ---------------------------------------------------------------- registration

  /** What a registration needs: a valid spelling, a password, a device, and, if there is a cache, its
      answer. */
  ghost predicate WellMade(cache: Option<Cache>, faults: Faults, creds: Credentials, name: string) {
    Valid(name) && !Spaces(creds.password) && !Spaces(creds.deviceId) && (cache.Some? ==> !faults.lookup)
  }

  ghost predicate Free(t: Tables, cache: Option<Cache>, name: string) {
    (cache.Some? ==> name !in cache.value) && forall u :: u in t.users ==> t.users[u].username != name
  }

  /** The name as written is registered, lowered and without the spaces, in table and cache, and one token
      is issued; nothing else changes. */
  lemma Registered(env: Env, t: Tables, cache: Option<Cache>, faults: Faults, creds: Credentials,
                   id: UserId, encoded: string, token: string, name: string)
    requires Consistent(t) && Unissued(t, token) && id !in t.users && Spells(env.lower, creds.username, name)
    requires WellMade(cache, faults, creds, name) && Free(t, cache, name)
    ensures var o := Register(env, t, cache, faults, creds, id, encoded, token);
      && o.response == Ok(AuthResult(id, TrimSpace(creds.deviceId), TrimSpace(creds.deviceName), token))
      && o.db.users == t.users[id := User(name, TrimSpace(creds.displayName), encoded)]
      && o.db.pending == t.pending
      && Issued(t, o.db, id, TrimSpace(creds.deviceId), TrimSpace(creds.deviceName), token)
      && (cache.Some? ==> o.cache == Some(if faults.store then cache.value else cache.value[name := id]))
  {
    NormalizeIff(creds.username, env.lower, name);
    TrimBlank(creds.password);
    TrimBlank(creds.deviceId);
    var t1 := InsertUser(t, id, User(name, TrimSpace(creds.displayName), encoded));
    UpsertIssues(t1, id, TrimSpace(creds.deviceId), TrimSpace(creds.deviceName), token);
  }

  /** Otherwise the first thing that is wrong is reported, and nothing changes. */
  lemma RegisterRefused(env: Env, t: Tables, cache: Option<Cache>, faults: Faults, creds: Credentials,
                        id: UserId, encoded: string, token: string, name: string)
    requires Spells(env.lower, creds.username, name)
    requires !WellMade(cache, faults, creds, name) || !Free(t, cache, name) || id in t.users
    ensures var o := Register(env, t, cache, faults, creds, id, encoded, token);
      && o.db == t && o.cache == cache && o.response.Err?
      && (o.response.error.InvalidUsername? <==> !Valid(name))
      && (o.response.error.PasswordRequired? <==> Valid(name) && Spaces(creds.password))
      && (o.response.error.DeviceIdRequired? <==>
            Valid(name) && !Spaces(creds.password) && Spaces(creds.deviceId))
      && (o.response.error.UsernameTakenError? <==> WellMade(cache, faults, creds, name))
      && (o.response.error.Internal? <==>
            Valid(name) && !Spaces(creds.password) && !Spaces(creds.deviceId) && cache.Some? && faults.lookup)
  {
    NormalizeIff(creds.username, env.lower, name);
    TrimBlank(creds.password);
    TrimBlank(creds.deviceId);
  }

  // ---------------------------------------------------------------- spellings

  /** A valid name spelled in any way is treated as the name itself, by every request. */
  lemma SpellingsAgree(env: Env, t: Tables, creds: Credentials, name: string, token: string, readAt: Time, now: Time)
    requires Lowering(env.lower) && Valid(name) && Spells(env.lower, creds.username, name)
    ensures var plain := creds.(username := name);
      && LoginByCredentials(env, t, creds, token) == LoginByCredentials(env, t, plain, token)
      && ScheduleDeletion(env, t, readAt, now, creds.username, creds.password) ==
         ScheduleDeletion(env, t, readAt, now, name, creds.password)
      && CancelDeletion(env, t, creds.username, creds.password) == CancelDeletion(env, t, name, creds.password)
  {
    NormalizeIff(creds.username, env.lower, name);
    ValidIsNormal(name, env.lower);
    assert Identify(env, t, creds.username, creds.password) == Identify(env, t, name, creds.password);
  }

  lemma SpellingsRegisterAlike(env: Env, t: Tables, cache: Option<Cache>, faults: Faults, creds: Credentials,
                               id: UserId, encoded: string, token: string, name: string)
    requires Lowering(env.lower) && Valid(name) && Spells(env.lower, creds.username, name)
    ensures Register(env, t, cache, faults, creds, id, encoded, token) ==
            Register(env, t, cache, faults, creds.(username := name), id, encoded, token)
  {
    NormalizeIff(creds.username, env.lower, name);
    ValidIsNormal(name, env.lower);
    assert RegisterRefusal(env, t, cache, faults, creds) ==
           RegisterRefusal(env, t, cache, faults, creds.(username := name));
  }
}
