/** Request level: the auth service's operations as functions of the tables, the cache and the
    values they draw at random. One request, or one item of a deletion worker, is one step. */
module AccountRequests {
  import opened Numbers
  import opened Options
  import opened Text
  import opened Usernames
  import opened AccountTables
  import M = MiddlewareChain

  /** Case mapping and password verification, both fixed for a run. */
  datatype Env = Env(lower: char -> char, verify: (string, string) -> bool)

  datatype Credentials = Credentials(
    username: string, displayName: string, password: string, deviceId: string, deviceName: string)

  datatype AuthResult = AuthResult(user: UserId, device: string, deviceName: string, token: string)

  datatype AuthError =
    | InvalidUsername | InvalidCredentials | InvalidToken | AccountPendingDeletion
    | PasswordRequired | DeviceIdRequired | SessionTokenNeeded | UsernameTakenError
    | DeletionInProgress | Internal

  datatype Response =
    | Ok(result: AuthResult)
    | Scheduled(seconds: nat)       // delete_at as Unix seconds
    | Done
    | Handled(log: seq<M.Entry>)      // what a request behind the auth middleware set off
    | Err(error: AuthError)

  type Cache = map<string, UserId>

  /** Which of the two Redis commands of a registration fail. */
  datatype Faults = Faults(lookup: bool, store: bool)

  const NO_FAULTS := Faults(false, false)

  datatype Outcome = Outcome(db: Tables, cache: Option<Cache>, response: Response)

  // ---------------------------------------------------------------- shared parts

  /** The user row with a given username, if any. */
  ghost function UserNamed(t: Tables, name: string): (r: Option<UserId>)
    ensures r.Some? ==> r.value in t.users && t.users[r.value].username == name
    ensures r.None? <==> !UsernameTaken(t, name)
  {
    if UsernameTaken(t, name) then
      var u :| u in t.users && t.users[u].username == name;
      Some(u)
    else None
  }

  /** Whom username and password identify: the checks shared by login, schedule and cancel. */
  ghost function Identify(env: Env, t: Tables, username: string, password: string): Option<UserId> {
    var name := NormalizeUsername(username, env.lower);
    if !Valid(name) || TrimSpace(password) == "" then None
    else
      var u := UserNamed(t, name);
      if u.Some? && env.verify(password, t.users[u.value].passwordHash) then u else None
  }

  ghost function IssueToken(t: Tables, cache: Option<Cache>, user: UserId, device: string, deviceName: string,
                            token: string): (o: Outcome)
    ensures o.cache == cache && o.db.users == t.users && o.db.pending == t.pending
  {
    Outcome(
      UpsertToken(t, user, device, deviceName, Sha256(token)),
      cache,
      if TokenAdmitted(t, user, device, Sha256(token)) then Ok(AuthResult(user, device, deviceName, token))
      else Err(Internal))
  }

  // ---------------------------------------------------------------- requests

  /** What keeps a registration from reaching the tables: input checks, then the cache if there
      is one, then the availability query. */
  ghost function RegisterRefusal(env: Env, t: Tables, cache: Option<Cache>, faults: Faults, creds: Credentials)
    : Option<AuthError>
  {
    var name := NormalizeUsername(creds.username, env.lower);
    if !Valid(name) then Some(InvalidUsername)
    else if TrimSpace(creds.password) == "" then Some(PasswordRequired)
    else if TrimSpace(creds.deviceId) == "" then Some(DeviceIdRequired)
    else if cache.Some? && faults.lookup then Some(Internal)
    else if cache.Some? && name in cache.value then Some(UsernameTakenError)
    else if UsernameTaken(t, name) then Some(UsernameTakenError)
    else None
  }

  /** A failed write to the cache is ignored. */
  ghost function Register(env: Env, t: Tables, cache: Option<Cache>, faults: Faults, creds: Credentials,
                          id: UserId, encoded: string, token: string): (o: Outcome)
    ensures o.cache.Some? <==> cache.Some?
  {
    var refusal := RegisterRefusal(env, t, cache, faults, creds);
    if refusal.Some? then Outcome(t, cache, Err(refusal.value))
    else if id in t.users then Outcome(t, cache, Err(UsernameTakenError))
    else
      var name := NormalizeUsername(creds.username, env.lower);
      var t1 := InsertUser(t, id, User(name, TrimSpace(creds.displayName), encoded));
      var cache1 := if cache.Some? && !faults.store then Some(cache.value[name := id]) else cache;
      IssueToken(t1, cache1, id, TrimSpace(creds.deviceId), TrimSpace(creds.deviceName), token)
  }

  ghost function LoginByCredentials(env: Env, t: Tables, creds: Credentials, token: string): (o: Outcome)
    ensures o.db.users == t.users && o.db.pending == t.pending
  {
    var name := NormalizeUsername(creds.username, env.lower);
    if !Valid(name) || TrimSpace(creds.password) == "" then Outcome(t, None, Err(InvalidCredentials))
    else if TrimSpace(creds.deviceId) == "" then Outcome(t, None, Err(DeviceIdRequired))
    else
      var u := Identify(env, t, creds.username, creds.password);
      if u.None? then Outcome(t, None, Err(InvalidCredentials))
      else if u.value in t.pending then Outcome(t, None, Err(AccountPendingDeletion))
      else IssueToken(t, None, u.value, TrimSpace(creds.deviceId), TrimSpace(creds.deviceName), token)
  }

  ghost function LoginByToken(t: Tables, now: Time, presented: string, token: string): (o: Outcome)
    ensures o.db.users == t.users && o.db.pending == t.pending
  {
    var tok := TrimSpace(presented);
    if tok == "" then Outcome(t, None, Err(SessionTokenNeeded))
    else if Accepting(t, now, Sha256(tok)) == {} then Outcome(t, None, Err(InvalidToken))
    else
      var k :| k in Accepting(t, now, Sha256(tok));
      var row := t.tokens[k];
      if row.user in t.pending then Outcome(t, None, Err(AccountPendingDeletion))
      else if !RotationAdmitted(t, k, Sha256(token)) then Outcome(t, None, Err(Internal))
      else Outcome(RotateToken(t, k, Sha256(token)), None, Ok(AuthResult(row.user, row.device, row.deviceName, token)))
  }

  /** The clock is read at `readAt` and the row written at `now`. */
  ghost function ScheduleDeletion(env: Env, t: Tables, readAt: Time, now: Time, username: string, password: string)
    : Outcome
  {
    var u := Identify(env, t, username, password);
    if u.None? then Outcome(t, None, Err(InvalidCredentials))
    else Outcome(Schedule(t, u.value, readAt + DELAY, now), None, Scheduled((readAt + DELAY) / SECOND))
  }

  ghost function CancelDeletion(env: Env, t: Tables, username: string, password: string): Outcome {
    var u := Identify(env, t, username, password);
    if u.None? then Outcome(t, None, Err(InvalidCredentials))
    else if u.value in t.pending && t.pending[u.value].startedAt.Some? then Outcome(t, None, Err(DeletionInProgress))
    else Outcome(Cancel(t, u.value), None, Done)
  }

  /** The cache after removeUsernameFromCache. */
  function DropName(env: Env, cache: Cache, username: string): Cache {
    var name := NormalizeUsername(username, env.lower);
    if Valid(name) then cache - {name} else cache
  }

  /** How often the auth middleware calls Next. */
  function GateCalls(t: Tables, session: Option<UserId>): nat {
    if session.Some? && session.value !in t.pending then 1 else 0
  }

  /** A request whose chain has the auth middleware in it, given how often the others call Next;
      `session` is the user of an authenticated session, if the request has one. */
  function Guarded(t: Tables, session: Option<UserId>, before: seq<nat>, after: seq<nat>): seq<M.Entry> {
    M.LogOf(before + [GateCalls(t, session)] + after)
  }

  // ---------------------------------------------------------------- worker rounds

  /** As many of the candidate rows as the limit allows, none due later than one left behind. */
  ghost predicate BatchOf(t: Tables, candidates: set<UserId>, rows: set<UserId>, limit: nat)
    requires candidates <= t.pending.Keys
  {
    && rows <= candidates
    && |rows| == Min(limit, |candidates|)
    && forall a, b :: a in rows && b in candidates - rows ==> t.pending[a].deleteAt <= t.pending[b].deleteAt
  }

  /** A batch ClaimDue may take when no other transaction holds a row locked. */
  ghost predicate IsBatch(t: Tables, now: Time, rows: set<UserId>, limit: nat) {
    BatchOf(t, Due(t, now), rows, limit)
  }

  /** Removing a set of users with everything that belongs to them. */
  function DeleteUsers(t: Tables, gone: set<UserId>): Tables {
    Tables(
      t.users - gone,
      map k | k in t.tokens && t.tokens[k].user !in gone :: t.tokens[k],
      t.pending - gone,
      t.nextToken)
  }

  function NamesOf(t: Tables, us: set<UserId>): set<string> {
    set u | u in us && u in t.users :: t.users[u].username
  }

  /** The cache keys that removing a set of users drops. */
  function KeysDropped(env: Env, t: Tables, us: set<UserId>): set<string> {
    set u | u in us && u in t.users && Valid(NormalizeUsername(t.users[u].username, env.lower)) ::
      NormalizeUsername(t.users[u].username, env.lower)
  }

  /** With valid usernames these are the usernames themselves. */
  lemma KeysAreNames(env: Env, t: Tables, us: set<UserId>)
    requires Lowering(env.lower) && forall u :: u in us && u in t.users ==> Valid(t.users[u].username)
    ensures KeysDropped(env, t, us) == NamesOf(t, us)
  {
    forall u | u in us && u in t.users
      ensures NormalizeUsername(t.users[u].username, env.lower) == t.users[u].username
    {
      ValidIsNormal(t.users[u].username, env.lower);
    }
  }

  datatype Store = Store(db: Tables, cache: Cache)

  /** What one undisturbed round leaves: the batch is gone from tables and cache. */
  function RoundEffect(env: Env, s: Store, gone: set<UserId>): Store {
    Store(DeleteUsers(s.db, gone), s.cache - KeysDropped(env, s.db, gone))
  }

  /** One claimed item: the user is deleted and its name dropped from the cache, or, when the
      user row is already gone, the pending row is cleared. */
  function ItemEffect(env: Env, s: Store, u: UserId): Store {
    if u in s.db.users then Store(DeleteUser(s.db, u), DropName(env, s.cache, s.db.users[u].username))
    else Store(DeletePending(s.db, u), s.cache)
  }

  function ItemsEffect(env: Env, s: Store, us: seq<UserId>): Store {
    if us == [] then s else ItemEffect(env, ItemsEffect(env, s, us[..|us| - 1]), us[|us| - 1])
  }

  function Elements<T>(us: seq<T>): set<T> {
    set u | u in us
  }

  lemma ItemIsRound(env: Env, s: Store, u: UserId)
    requires u in s.db.users
    ensures ItemEffect(env, s, u) == RoundEffect(env, s, {u})
  {
    var name := NormalizeUsername(s.db.users[u].username, env.lower);
    assert KeysDropped(env, s.db, {u}) == if Valid(name) then {name} else {};
    assert DeleteUser(s.db, u).tokens == DeleteUsers(s.db, {u}).tokens;
  }

  /** Working through a claimed batch item by item amounts to removing the batch at once. */
  lemma {:induction false} ItemsAreRound(env: Env, s: Store, us: seq<UserId>)
    requires Elements(us) <= s.db.users.Keys
    requires forall i, j :: 0 <= i < j < |us| ==> us[i] != us[j]
    ensures ItemsEffect(env, s, us) == RoundEffect(env, s, Elements(us))
  {
    if us == [] {
      RoundEffectNone(env, s);
      assert Elements(us) == {};
    } else {
      var init, u := us[..|us| - 1], us[|us| - 1];
      assert us == init + [u];
      assert Elements(us) == Elements(init) + {u};
      ItemsAreRound(env, s, init);
      ItemIsRound(env, RoundEffect(env, s, Elements(init)), u);
      RoundEffectTwice(env, s, Elements(init), {u});
    }
  }

  /** Deleting a claimed batch leaves no trace of the claim. */
  lemma ClaimThenRound(env: Env, s: Store, rows: set<UserId>, now: Time)
    requires rows <= s.db.pending.Keys
    ensures RoundEffect(env, s.(db := Claim(s.db, rows, now)), rows) == RoundEffect(env, s, rows)
  {
    var c := Claim(s.db, rows, now);
    assert c.pending - rows == s.db.pending - rows;
    assert DeleteUsers(c, rows).tokens == DeleteUsers(s.db, rows).tokens;
    assert KeysDropped(env, c, rows) == KeysDropped(env, s.db, rows);
  }

  /** Rounds of one worker, each at its own time, with no failures. */
  ghost predicate Rounds(env: Env, s: Store, rounds: seq<(Time, set<UserId>)>, s': Store)
    decreases |rounds|
  {
    if rounds == [] then s' == s
    else
      && IsBatch(s.db, rounds[0].0, rounds[0].1, BATCH)
      && Rounds(env, RoundEffect(env, s, rounds[0].1), rounds[1..], s')
  }

  /** No row falls due after `now` while the rounds run. */
  ghost predicate NothingNewlyDue(t: Tables, now: Time, rounds: seq<(Time, set<UserId>)>) {
    forall i :: 0 <= i < |rounds| ==> Due(t, rounds[i].0) == Due(t, now)
  }

  lemma DueShrinks(t: Tables, now: Time, gone: set<UserId>)
    ensures Due(DeleteUsers(t, gone), now) == Due(t, now) - gone
  {
  }

  lemma RoundEffectTwice(env: Env, s: Store, a: set<UserId>, b: set<UserId>)
    ensures RoundEffect(env, RoundEffect(env, s, a), b) == RoundEffect(env, s, a + b)
  {
    var l, r := DeleteUsers(DeleteUsers(s.db, a), b), DeleteUsers(s.db, a + b);
    assert l.users == r.users && l.tokens == r.tokens && l.pending == r.pending;
    var ka, kb := KeysDropped(env, s.db, a), KeysDropped(env, DeleteUsers(s.db, a), b);
    var kab := KeysDropped(env, s.db, a + b);
    assert ka + kb == kab;
    assert (s.cache - ka) - kb == s.cache - kab;
  }

  lemma RoundEffectNone(env: Env, s: Store)
    ensures RoundEffect(env, s, {}) == s
  {
    assert DeleteUsers(s.db, {}).tokens == s.db.tokens;
  }

  /** Conservation over any number of rounds: r rounds delete min(k, 50 r) of the k due users,
      earliest first, with their tokens, pending rows and cache keys, and nothing else. */
  lemma {:induction false} RoundsDelete(env: Env, s: Store, now: Time, rounds: seq<(Time, set<UserId>)>, s': Store)
    returns (gone: set<UserId>)
    requires Rounds(env, s, rounds, s') && NothingNewlyDue(s.db, now, rounds)
    ensures s' == RoundEffect(env, s, gone) && gone <= Due(s.db, now)
    ensures |gone| == Min(|Due(s.db, now)|, 50 * |rounds|)
    ensures forall a, b :: a in gone && b in Due(s.db, now) - gone ==>
      s.db.pending[a].deleteAt <= s.db.pending[b].deleteAt
    decreases |rounds|
  {
    if rounds == [] {
      gone := {};
      RoundEffectNone(env, s);
    } else {
      var first := rounds[0].1;
      var s1 := RoundEffect(env, s, first);
      assert Due(s.db, rounds[0].0) == Due(s.db, now);
      DueShrinks(s.db, now, first);
      forall i | 0 <= i < |rounds| - 1 ensures Due(s1.db, rounds[1..][i].0) == Due(s1.db, now) {
        assert rounds[1..][i] == rounds[i + 1];
        DueShrinks(s.db, rounds[i + 1].0, first);
      }
      var rest := RoundsDelete(env, s1, now, rounds[1..], s');
      RoundEffectTwice(env, s, first, rest);
      gone := first + rest;
      assert BatchOf(s.db, Due(s.db, now), first, BATCH);
      forall a, b | a in gone && b in Due(s.db, now) - gone
        ensures s.db.pending[a].deleteAt <= s.db.pending[b].deleteAt
      {
        assert b in Due(s1.db, now) && (a in rest ==> a in Due(s1.db, now));
      }
      assert |gone| == |first| + |rest|;
      assert |Due(s1.db, now)| == |Due(s.db, now)| - |first|;
    }
  }

  /** Batch drain: ceil(k / 50) rounds remove exactly the k due users. */
  lemma Drain(env: Env, s: Store, now: Time, rounds: seq<(Time, set<UserId>)>, s': Store)
    requires Rounds(env, s, rounds, s') && NothingNewlyDue(s.db, now, rounds)
    requires |rounds| == (|Due(s.db, now)| + 49) / 50
    ensures s' == RoundEffect(env, s, Due(s.db, now))
  {
    var gone := RoundsDelete(env, s, now, rounds, s');
    SubsetFull(gone, Due(s.db, now));
  }

  lemma SubsetFull<T>(a: set<T>, b: set<T>)
    requires a <= b && |a| == |b|
    ensures a == b
  {
    assert |b - a| == |b| - |a|;
  }
}
