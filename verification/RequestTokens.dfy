/** Which session tokens are accepted, judged from the answers of the run. */
module RequestTokens {
  import opened Options
  import opened Text
  import opened AccountTables
  import opened AccountRequests
  import opened RequestRuns
  import opened AccountAnswers
  import opened RequestAnswers
  import S = AccountRuns

  /** The row in which a token that was handed out is kept. */
  function RowFor(a: AuthResult): TokenRow {
    TokenRow(a.user, Sha256(a.token), a.device, a.deviceName, None, None)
  }

  ghost predicate Stands(t: Tables, a: AuthResult) {
    exists j :: j in t.tokens && t.tokens[j] == RowFor(a)
  }

  // ---------------------------------------------------------------- one request

  /** A token login is decided by the row that has the presented token's hash. */
  lemma TokenLoginAnswers(env: Env, t: Trace, k: nat)
    requires Run(env, t) && k < |t.rs| && t.rs[k].TokenLogin?
    ensures var db, presented := t.ws[k].db, t.rs[k].presented;
      && (Spaces(presented) ==> t.outs[k] == Err(SessionTokenNeeded))
      && (!Spaces(presented) && Unissued(db, TrimSpace(presented)) ==> t.outs[k] == Err(InvalidToken))
      && (forall j :: j in db.tokens && db.tokens[j].hash == Sha256(TrimSpace(presented)) && !Spaces(presented) ==>
            var row := db.tokens[j];
            if row.user in db.pending then t.outs[k] == Err(AccountPendingDeletion)
            else t.outs[k] == Ok(AuthResult(row.user, row.device, row.deviceName, t.rs[k].token)))
    ensures !t.outs[k].Ok? ==> t.ws[k + 1] == t.ws[k]
  {
    Here(env, t, k);
    var w, presented := t.ws[k], t.rs[k].presented;
    FreshUnissued(w, t.rs[k].token);
    if Spaces(presented) || Unissued(w.db, TrimSpace(presented)) {
      TokenRefused(w.db, w.now, presented, t.rs[k].token);
    } else {
      var j :| j in w.db.tokens && w.db.tokens[j].hash == Sha256(TrimSpace(presented));
      assert UniqueHashes(w.db);
      LoginWithToken(w.db, w.now, presented, t.rs[k].token, j);
    }
  }

  lemma RegisterKept(env: Env, w: World, r: Request)
    requires S.Sound(w) && NamesValid(w.db) && Enabled(w, r) && r.RegisterUser?
    ensures var (w', out) := Serve(env, w, r);
      if out.Ok? then Issued(w.db, w'.db, out.result.user, out.result.device, out.result.deviceName, out.result.token)
      else w'.db.tokens == w.db.tokens
  {
    FreshUnissued(w, r.token);
    var name := Usernames.NormalizeUsername(r.creds.username, env.lower);
    Usernames.NormalizeIff(r.creds.username, env.lower, name);
    if WellMade(Some(w.cache), NO_FAULTS, r.creds, name) && Free(w.db, Some(w.cache), name) {
      Registered(env, w.db, Some(w.cache), NO_FAULTS, r.creds, r.id, r.encoded, r.token, name);
    } else {
      RegisterRefused(env, w.db, Some(w.cache), NO_FAULTS, r.creds, r.id, r.encoded, r.token, name);
    }
  }

  lemma PasswordKept(env: Env, w: World, r: Request)
    requires S.Sound(w) && NamesValid(w.db) && Enabled(w, r) && r.PasswordLogin?
    ensures var (w', out) := Serve(env, w, r);
      if out.Ok? then Issued(w.db, w'.db, out.result.user, out.result.device, out.result.deviceName, out.result.token)
      else w'.db.tokens == w.db.tokens
  {
    FreshUnissued(w, r.token);
    if u :| Fits(env, w.db, u, r.creds.username, r.creds.password) {
      LoginWithPassword(env, w.db, r.creds, r.token, u);
    } else {
      LoginRefused(env, w.db, r.creds, r.token);
    }
  }

  lemma TokenKept(env: Env, w: World, r: Request)
    requires S.Sound(w) && Enabled(w, r) && r.TokenLogin?
    ensures var (w', out) := Serve(env, w, r);
      if out.Ok? then Issued(w.db, w'.db, out.result.user, out.result.device, out.result.deviceName, out.result.token)
      else w'.db.tokens == w.db.tokens
  {
    FreshUnissued(w, r.token);
    if Spaces(r.presented) || Unissued(w.db, TrimSpace(r.presented)) {
      TokenRefused(w.db, w.now, r.presented, r.token);
    } else {
      var j :| j in w.db.tokens && w.db.tokens[j].hash == Sha256(TrimSpace(r.presented));
      LoginWithToken(w.db, w.now, r.presented, r.token, j);
      RotationIssues(w.db, j, r.token);
    }
  }

  lemma RotationIssues(t: Tables, j: TokenId, token: string)
    requires Consistent(t) && j in t.tokens
    ensures var row := t.tokens[j];
      Issued(t, t.(tokens := t.tokens[j := row.(hash := Sha256(token))]), row.user, row.device, row.deviceName, token)
  {
    assert t.tokens[j := t.tokens[j].(hash := Sha256(token))][j].device == t.tokens[j].device;
  }

  lemma OthersKept(env: Env, w: World, r: Request)
    requires !r.RegisterUser? && !r.PasswordLogin? && !r.TokenLogin? && !r.ProcessItem?
    ensures !Serve(env, w, r).1.Ok? && Serve(env, w, r).0.db.tokens == w.db.tokens
  {
  }

  /** What a request does to the token rows: an answer that hands out a token puts it into the row of its
      device, and a deleted user's rows go. */
  ghost predicate RowsFollow(w: World, out: Response, w': World) {
    if out.Ok? then Issued(w.db, w'.db, out.result.user, out.result.device, out.result.deviceName, out.result.token)
    else forall j :: j in w'.db.tokens || (j in w.db.tokens && w.db.tokens[j].user in w'.db.users) ==>
      j in w.db.tokens && j in w'.db.tokens && w'.db.tokens[j] == w.db.tokens[j]
  }

  lemma ServeRows(env: Env, w: World, r: Request)
    requires S.Sound(w) && NamesValid(w.db) && Enabled(w, r)
    ensures RowsFollow(w, Serve(env, w, r).1, Serve(env, w, r).0)
  {
    if r.RegisterUser? {
      RegisterKept(env, w, r);
    } else if r.PasswordLogin? {
      PasswordKept(env, w, r);
    } else if r.TokenLogin? {
      TokenKept(env, w, r);
    } else if !r.ProcessItem? {
      OthersKept(env, w, r);
    }
  }

  lemma RowsAt(env: Env, t: Trace, k: nat)
    requires Run(env, t) && k < |t.rs|
    ensures RowsFollow(t.ws[k], t.outs[k], t.ws[k + 1])
  {
    Here(env, t, k);
    ServeRows(env, t.ws[k], t.rs[k]);
  }

  // ---------------------------------------------------------------- over runs

  /** No answer from i + 1 up to n - 1 hands out a token for the device. */
  ghost predicate NoneSince(t: Trace, i: nat, n: nat, device: string)
    requires n <= |t.outs|
  {
    forall m :: i < m < n ==> !(t.outs[m].Ok? && t.outs[m].result.device == device)
  }

  /** A token handed out stays in its row until the next one for its device, or until its user is deleted. */
  lemma {:induction false} StandsUntil(env: Env, t: Trace, i: nat, n: nat)
    requires Run(env, t) && i < n <= |t.rs| && t.outs[i].Ok? && NoneSince(t, i, n, t.outs[i].result.device)
    requires t.outs[i].result.user in t.ws[n].db.users
    ensures Stands(t.ws[n].db, t.outs[i].result)
  {
    RowsAt(env, t, n - 1);
    if i < n - 1 {
      IssuedUser(env, t, i);
      WasThere(env, t, i + 1, n, t.outs[i].result.user);
      StandsUntil(env, t, i, n - 1);
    }
  }

  lemma IssuedUser(env: Env, t: Trace, i: nat)
    requires Run(env, t) && i < |t.rs| && t.outs[i].Ok?
    ensures t.outs[i].result.user in t.ws[i + 1].db.users
  {
    RowsAt(env, t, i);
    RunSound(env, t, i + 1);
    var j :| j in t.ws[i + 1].db.tokens && t.ws[i + 1].db.tokens[j].device == t.outs[i].result.device;
  }

  /** A row holds the last token handed out for its device. */
  lemma {:induction false} LastForDevice(env: Env, t: Trace, n: nat, j: TokenId) returns (i: nat)
    requires Run(env, t) && n <= |t.rs| && j in t.ws[n].db.tokens
    ensures i < n && t.outs[i].Ok? && t.ws[n].db.tokens[j] == RowFor(t.outs[i].result)
    ensures NoneSince(t, i, n, t.outs[i].result.device)
  {
    Begins(env, t);
    RowsAt(env, t, n - 1);
    var out := t.outs[n - 1];
    if out.Ok? && t.ws[n].db.tokens[j].device == out.result.device {
      i := n - 1;
    } else {
      i := LastForDevice(env, t, n - 1, j);
    }
  }

  /** Acceptance, judged from the answers alone. A token handed out at i is accepted at k exactly when no
      other token was handed out for its device in between and its user still exists with no deletion
      pending; it then logs in that user on that device. */
  lemma AcceptedIff(env: Env, t: Trace, i: nat, k: nat)
    requires Run(env, t) && i < k < |t.rs| && t.outs[i].Ok?
    requires t.rs[k].TokenLogin? && TrimSpace(t.rs[k].presented) == t.outs[i].result.token
    ensures var a := t.outs[i].result;
      && (t.outs[k].Ok? <==>
            NoneSince(t, i, k, a.device) && a.user in t.ws[k].db.users && a.user !in t.ws[k].db.pending)
      && (t.outs[k].Ok? ==> t.outs[k].result == a.(token := t.rs[k].token))
      && (t.outs[k] == Err(AccountPendingDeletion) <==> NoneSince(t, i, k, a.device) && a.user in t.ws[k].db.pending)
      && (t.outs[k].Ok? || t.outs[k] == Err(AccountPendingDeletion) || t.outs[k] == Err(InvalidToken))
  {
    var a, db := t.outs[i].result, t.ws[k].db;
    TokenLoginAnswers(env, t, k);
    RunSound(env, t, k);
    NotBlank(env, t, i);
    TrimBlank(t.rs[k].presented);
    if NoneSince(t, i, k, a.device) && a.user in db.users {
      StandsUntil(env, t, i, k);
      var j :| j in db.tokens && db.tokens[j] == RowFor(a);
    } else if j :| j in db.tokens && db.tokens[j].hash == Sha256(a.token) {
      var i' := LastForDevice(env, t, k, j);
      IssuedOnce(env, t, i, i', a.token);
    } else {
      assert Unissued(db, a.token);
    }
  }

  lemma NotBlank(env: Env, t: Trace, i: nat)
    requires Run(env, t) && i < |t.rs| && t.outs[i].Ok?
    ensures t.outs[i].result.token != ""
  {
    StepAt(env, t, i);
  }
}
