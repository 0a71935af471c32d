/** The repositories, the username cache and the auth service as objects that change in place,
    each operation proved against its function on tables. */
module AccountService {
  import opened Options
  import opened Text
  import opened Usernames
  import opened AccountTables
  import opened AccountRequests
  import M = MiddlewareChain
  import D = Sessions

  /** One claimed row, as ClaimDue returns it. */
  datatype Claimed = Claimed(user: UserId, row: PendingRow)

  /** ErrMissingRequiredFields is Missing throughout. */
  datatype Availability = Available | Taken | Missing

  datatype Lookup = Found(user: UserId) | Absent | Missing

  datatype CreateResult = Created | UsernameTaken | Missing

  datatype UpsertResult = Upserted | Refused | Missing

  datatype RotateResult = Rotated | NotFound | Conflict | Missing

  datatype CacheResult = Hit | Miss | Stored | Removed | Missing | Failed

  function UserList(items: seq<Claimed>): (us: seq<UserId>)
    ensures |us| == |items| && forall i :: 0 <= i < |items| ==> us[i] == items[i].user
  {
    seq(|items|, i requires 0 <= i < |items| => items[i].user)
  }

  lemma ElementsSnoc(us: seq<UserId>, u: UserId)
    ensures Elements(us + [u]) == Elements(us) + {u}
  {
  }

  lemma ClaimNone(t: Tables, now: Time)
    ensures Claim(t, Elements([]), now) == t
  {
    assert Claim(t, Elements([]), now).pending == t.pending;
  }

  /** The rows returned are the rows as they now are. */
  lemma ClaimedRows(t: Tables, order: seq<UserId>, now: Time, out: seq<Claimed>)
    requires |out| == |order| && forall i :: 0 <= i < |order| ==> order[i] in t.pending
    requires forall i :: 0 <= i < |out| ==>
      out[i] == Claimed(order[i], t.pending[order[i]].(startedAt := Some(now)))
    ensures UserList(out) == order
    ensures var c := Claim(t, Elements(order), now);
      forall i :: 0 <= i < |out| ==> out[i].user in c.pending && out[i].row == c.pending[out[i].user]
  {
    assert forall j :: 0 <= j < |order| ==> order[j] in Elements(order);
  }

  /** Claiming one more row of a partly claimed table. */
  lemma ClaimOneMore(t: Tables, taken: set<UserId>, u: UserId, now: Time)
    requires u in t.pending && u !in taken
    ensures var c := Claim(t, taken, now);
      u in c.pending && c.pending[u] == t.pending[u]
      && c.(pending := c.pending[u := c.pending[u].(startedAt := Some(now))]) == Claim(t, taken + {u}, now)
  {
    var c := Claim(t, taken, now);
    assert c.pending[u := c.pending[u].(startedAt := Some(now))] == Claim(t, taken + {u}, now).pending;
  }

  /** The device has one row, so overwriting that row is the whole upsert. */
  lemma UpsertInPlace(t: Tables, user: UserId, device: string, deviceName: string, hash: Hash, k: TokenId)
    requires Consistent(t) && TokenAdmitted(t, user, device, hash)
    requires k in t.tokens && t.tokens[k].device == device
    ensures UpsertToken(t, user, device, deviceName, hash) ==
            t.(nextToken := t.nextToken + 1, tokens := t.tokens[k := Overwrite(t.tokens[k], user, deviceName, hash)])
  {
    assert UpsertToken(t, user, device, deviceName, hash).tokens ==
           t.tokens[k := Overwrite(t.tokens[k], user, deviceName, hash)];
  }

  ghost predicate Distinct(us: seq<UserId>) {
    forall i, j :: 0 <= i < j < |us| ==> us[i] != us[j]
  }

  /** The candidate rows split into those selected so far, in order, and the rest. */
  ghost predicate Selecting(t: Tables, all: set<UserId>, order: seq<UserId>, due: set<UserId>)
    requires all <= t.pending.Keys
  {
    && Distinct(order) && |Elements(order)| == |order|
    && Elements(order) !! due && Elements(order) + due == all
    && forall a, b :: a in Elements(order) && b in due ==> t.pending[a].deleteAt <= t.pending[b].deleteAt
  }

  lemma SelectStep(t: Tables, all: set<UserId>, order: seq<UserId>, due: set<UserId>, u: UserId)
    requires all <= t.pending.Keys && Selecting(t, all, order, due) && u in due
    requires forall v :: v in due ==> t.pending[u].deleteAt <= t.pending[v].deleteAt
    ensures Selecting(t, all, order + [u], due - {u})
  {
    ElementsSnoc(order, u);
    forall i | 0 <= i < |order| ensures order[i] != u {
      assert order[i] in Elements(order);
    }
  }

  lemma SelectEnd(t: Tables, all: set<UserId>, order: seq<UserId>, due: set<UserId>, n: nat)
    requires all <= t.pending.Keys && Selecting(t, all, order, due) && |order| <= n && (|order| == n || due == {})
    ensures BatchOf(t, all, Elements(order), n)
  {
    assert |all| == |Elements(order)| + |due|;
    assert all - Elements(order) == due;
  }

  lemma SliceSnoc(us: seq<UserId>, i: nat)
    requires i < |us| && Distinct(us)
    ensures Elements(us[..i + 1]) == Elements(us[..i]) + {us[i]} && us[i] !in Elements(us[..i])
  {
    assert us[..i + 1] == us[..i] + [us[i]];
    ElementsSnoc(us[..i], us[i]);
  }

  class Database {
    var users: map<UserId, User>
    var tokens: map<TokenId, TokenRow>
    var pending: map<UserId, PendingRow>
    var nextToken: TokenId

    ghost function State(): Tables
      reads this
    {
      Tables(users, tokens, pending, nextToken)
    }

    ghost predicate Valid()
      reads this
    {
      Consistent(State())
    }

    constructor ()
      ensures Valid() && State() == EMPTY
    {
      users, tokens, pending, nextToken := map[], map[], map[], 1;
    }

    // ------------------------------------------------------------ users

    method IsUsernameAvailable(username: string) returns (r: Availability)
      ensures var name := TrimSpace(username);
        r == if name == "" then Availability.Missing
             else if AccountTables.UsernameTaken(State(), name) then Taken else Available
    {
      var name := TrimSpace(username);
      if name == "" {
        return Availability.Missing;
      }
      return if exists u :: u in users && users[u].username == name then Taken else Available;
    }

    method GetUserByUsername(username: string) returns (r: Lookup)
      requires Valid()
      ensures var name := TrimSpace(username);
        && (r.Missing? <==> name == "")
        && (!r.Missing? ==> UserNamed(State(), name) == if r.Found? then Some(r.user) else None)
    {
      var name := TrimSpace(username);
      if name == "" {
        return Lookup.Missing;
      }
      if exists u :: u in users && users[u].username == name {
        var id :| id in users && users[id].username == name;
        return Found(id);
      }
      return Absent;
    }

    /** `id` is the value gen_random_uuid draws for the new row. */
    method CreateUser(id: UserId, username: string, displayName: string, passwordHash: string) returns (r: CreateResult)
      requires Valid()
      modifies this
      ensures Valid()
      ensures r.Missing? <==> TrimSpace(username) == "" || passwordHash == ""
      ensures r.Missing? ==> State() == old(State())
      ensures !r.Missing? ==>
        State() == InsertUser(old(State()), id, User(TrimSpace(username), TrimSpace(displayName), passwordHash))
      ensures r.Created? <==>
        !r.Missing? && id !in old(users) && !AccountTables.UsernameTaken(old(State()), TrimSpace(username))
    {
      var name := TrimSpace(username);
      if name == "" || passwordHash == "" {
        return CreateResult.Missing;
      }
      var user := User(name, TrimSpace(displayName), passwordHash);
      UserStatementsConsistent(State(), id, user);
      if id in users || exists u :: u in users && users[u].username == name {
        return CreateResult.UsernameTaken;
      }
      users := users[id := user];
      return Created;
    }

    method DeleteUserByID(u: UserId) returns (username: Option<string>)
      requires Valid()
      modifies this
      ensures Valid() && State() == DeleteUser(old(State()), u)
      ensures username == if u in old(users) then Some(old(users)[u].username) else None
    {
      UserStatementsConsistent(State(), u, User("", "", ""));
      username := if u in users then Some(users[u].username) else None;
      users := users - {u};
      tokens := map k | k in tokens && tokens[k].user != u :: tokens[k];
      pending := pending - {u};
    }

    // ------------------------------------------------------------ user_tokens

    method UpsertActiveToken(user: UserId, deviceId: string, deviceName: string, hash: Hash) returns (r: UpsertResult)
      requires Valid()
      modifies this
      ensures Valid()
      ensures r.Missing? <==> TrimSpace(deviceId) == ""
      ensures r.Missing? ==> State() == old(State())
      ensures !r.Missing? ==>
        State() == UpsertToken(old(State()), user, TrimSpace(deviceId), TrimSpace(deviceName), hash)
      ensures r.Upserted? <==> !r.Missing? && TokenAdmitted(old(State()), user, TrimSpace(deviceId), hash)
    {
      var device, name := TrimSpace(deviceId), TrimSpace(deviceName);
      if device == "" {
        return UpsertResult.Missing;
      }
      ghost var t := State();
      var ok := CanStore(user, device, hash);
      var row := RowOfDevice(device);
      if ok {
        tokens := if row.Some? then tokens[row.value := Overwrite(tokens[row.value], user, name, hash)]
                  else tokens[nextToken := TokenRow(user, hash, device, name, None, None)];
        if row.Some? {
          UpsertInPlace(t, user, device, name, hash, row.value);
        }
      }
      nextToken := nextToken + 1;
      assert State() == UpsertToken(t, user, device, name, hash);
      UpsertTokenConsistent(t, user, device, name, hash);
      return if ok then Upserted else Refused;
    }

    method CanStore(user: UserId, device: string, hash: Hash) returns (ok: bool)
      ensures ok <==> TokenAdmitted(State(), user, device, hash)
    {
      ok := user in users && forall k :: k in tokens && tokens[k].hash == hash ==> tokens[k].device == device;
    }

    method RowOfDevice(device: string) returns (row: Option<TokenId>)
      ensures row.Some? <==> HasDevice(State(), device)
      ensures row.Some? ==> row.value in tokens && tokens[row.value].device == device
    {
      row := None;
      if exists k :: k in tokens && tokens[k].device == device {
        var k :| k in tokens && tokens[k].device == device;
        row := Some(k);
      }
    }

    method GetActiveByTokenHash(hash: Hash, now: Time) returns (found: Option<TokenId>)
      ensures found.None? <==> Accepting(State(), now, hash) == {}
      ensures found.Some? ==> found.value in Accepting(State(), now, hash)
    {
      found := None;
      if exists k :: k in tokens && tokens[k].hash == hash && Active(tokens[k], now) {
        var k :| k in tokens && tokens[k].hash == hash && Active(tokens[k], now);
        found := Some(k);
        assert k in Accepting(State(), now, hash);
      }
    }

    method RotateToken(id: TokenId, hash: Hash) returns (r: RotateResult)
      requires Valid()
      modifies this
      ensures Valid() && State() == AccountTables.RotateToken(old(State()), id, hash)
      ensures r == if id == 0 then RotateResult.Missing else if id !in old(tokens) then NotFound
                   else if RotationAdmitted(old(State()), id, hash) then Rotated else Conflict
    {
      RotateTokenConsistent(State(), id, hash);
      if id == 0 {
        return RotateResult.Missing;
      }
      if id !in tokens {
        return NotFound;
      }
      if exists k :: k in tokens && k != id && tokens[k].hash == hash {
        return Conflict;
      }
      tokens := tokens[id := tokens[id].(hash := hash)];
      return Rotated;
    }

    // ------------------------------------------------------------ pending_account_deletions

    method Upsert(u: UserId, deleteAt: Time, now: Time) returns (r: UpsertResult)
      requires Valid()
      modifies this
      ensures Valid()
      ensures r == if deleteAt == 0 then UpsertResult.Missing else if u in users then Upserted else Refused
      ensures State() == if deleteAt == 0 then old(State()) else Schedule(old(State()), u, deleteAt, now)
    {
      if deleteAt == 0 {
        return UpsertResult.Missing;
      }
      PendingStatementsConsistent(State(), u, deleteAt, now);
      if u !in users {
        return Refused;
      }
      pending := pending[u := PendingRow(now, deleteAt, None)];
      return Upserted;
    }

    method ExistsActiveByUserID(u: UserId) returns (found: bool)
      ensures found <==> u in pending
    {
      found := u in pending;
    }

    method DeleteByUserID(u: UserId)
      requires Valid()
      modifies this
      ensures Valid() && State() == DeletePending(old(State()), u)
    {
      PendingStatementsConsistent(State(), u, 0, 0);
      pending := pending - {u};
    }

    /** Both statements of the cancel, with nothing in between. */
    method CancelIfNotStarted(u: UserId) returns (cancelled: bool, inProgress: bool)
      requires Valid()
      modifies this
      ensures Valid() && State() == Cancel(old(State()), u)
      ensures cancelled <==> Cancellable(old(State()), u)
      ensures inProgress <==> u in old(pending) && old(pending)[u].startedAt.Some?
    {
      PendingStatementsConsistent(State(), u, 0, 0);
      cancelled := u in pending && pending[u].startedAt.None?;
      if cancelled {
        pending := pending - {u};
        return true, false;
      }
      return false, u in pending && pending[u].startedAt.Some?;
    }

    /** The earliest row of a non-empty set of rows. */
    method Earliest(rows: set<UserId>) returns (u: UserId)
      requires rows != {} && rows <= pending.Keys
      ensures u in rows && forall v :: v in rows ==> pending[u].deleteAt <= pending[v].deleteAt
    {
      u :| u in rows;
      var rest := rows - {u};
      while rest != {}
        invariant u in rows && rest <= rows
        invariant forall v :: v in rows - rest ==> pending[u].deleteAt <= pending[v].deleteAt
        decreases |rest|
      {
        var v :| v in rest;
        rest := rest - {v};
        if pending[v].deleteAt < pending[u].deleteAt {
          u := v;
        }
      }
    }

    /** The sub-select of ClaimDue: the due rows that no other transaction has locked, earliest first,
        up to the limit. */
    method SelectDue(n: nat, now: Time, locked: set<UserId>) returns (order: seq<UserId>)
      ensures BatchOf(State(), Due(State(), now) - locked, Elements(order), n) && Distinct(order)
    {
      order := [];
      var due := set u | u in pending && pending[u].deleteAt <= now && pending[u].startedAt.None? && u !in locked;
      ghost var all := due;
      assert all == Due(State(), now) - locked;
      while |order| < n && due != {}
        invariant Selecting(State(), all, order, due) && |order| <= n
        decreases |due|
      {
        var u := Earliest(due);
        SelectStep(State(), all, order, due, u);
        order := order + [u];
        due := due - {u};
      }
      SelectEnd(State(), all, order, due, n);
    }

    /** The UPDATE ... RETURNING of ClaimDue and the loop that collects its rows. */
    method StartAll(order: seq<UserId>, now: Time) returns (out: seq<Claimed>)
      requires Distinct(order) && forall j :: 0 <= j < |order| ==> order[j] in pending
      modifies this`pending
      ensures State() == Claim(old(State()), Elements(order), now)
      ensures UserList(out) == order
      ensures forall i :: 0 <= i < |out| ==> out[i].user in pending && out[i].row == pending[out[i].user]
    {
      ghost var before := State();
      out := [];
      var i := 0;
      ClaimNone(before, now);
      while i < |order|
        invariant 0 <= i == |out| <= |order|
        invariant State() == Claim(before, Elements(order[..i]), now)
        invariant forall j :: 0 <= j < i ==>
          out[j] == Claimed(order[j], before.pending[order[j]].(startedAt := Some(now)))
      {
        var u := order[i];
        SliceSnoc(order, i);
        ClaimOneMore(before, Elements(order[..i]), u, now);
        var row := pending[u].(startedAt := Some(now));
        pending := pending[u := row];
        out := out + [Claimed(u, row)];
        i := i + 1;
      }
      assert order[..|order|] == order;
      ClaimedRows(before, order, now, out);
    }

    /** Claims the earliest due rows that are not locked, up to the limit, and returns them as claimed. */
    method ClaimDue(limit: int, now: Time, locked: set<UserId>) returns (out: seq<Claimed>)
      requires Valid()
      modifies this
      ensures Valid() && State() == Claim(old(State()), Elements(UserList(out)), now)
      ensures BatchOf(old(State()), Due(old(State()), now) - locked, Elements(UserList(out)),
                      if limit <= 0 then 50 else limit)
      ensures Distinct(UserList(out))
      ensures forall i :: 0 <= i < |out| ==> out[i].user in pending && out[i].row == pending[out[i].user]
    {
      var order := SelectDue(if limit <= 0 then BATCH else limit, now, locked);
      ClaimConsistent(State(), Elements(order), now);
      assert forall j :: 0 <= j < |order| ==> order[j] in Elements(order);
      out := StartAll(order, now);
    }
  }

  class UsernameCache {
    var keys: map<string, UserId>

    constructor ()
      ensures keys == map[]
    {
      keys := map[];
    }

    /** `fails` says whether the Redis command fails. */
    method UsernameExists(username: string, fails: bool) returns (r: CacheResult)
      ensures var name := TrimSpace(username);
        r == if name == "" then CacheResult.Missing else if fails then Failed else if name in keys then Hit else Miss
    {
      var name := TrimSpace(username);
      if name == "" {
        return CacheResult.Missing;
      }
      if fails {
        return Failed;
      }
      return if name in keys then Hit else Miss;
    }

    method SetUsername(username: string, u: UserId, fails: bool) returns (r: CacheResult)
      modifies this
      ensures var name := TrimSpace(username);
        && r == (if name == "" then CacheResult.Missing else if fails then Failed else Stored)
        && keys == if r.Stored? then old(keys)[name := u] else old(keys)
    {
      var name := TrimSpace(username);
      if name == "" {
        return CacheResult.Missing;
      }
      if fails {
        return Failed;
      }
      keys := keys[name := u];
      return Stored;
    }

    method RemoveUsername(username: string) returns (r: CacheResult)
      modifies this
      ensures var name := TrimSpace(username);
        && r == (if name == "" then CacheResult.Missing else Removed)
        && keys == if name == "" then old(keys) else old(keys) - {name}
    {
      var name := TrimSpace(username);
      if name == "" {
        return CacheResult.Missing;
      }
      keys := keys - {name};
      return Removed;
    }
  }

  ghost function CacheOf(redis: UsernameCache?): Option<Cache>
    reads redis
  {
    if redis == null then None else Some(redis.keys)
  }

  // ---------------------------------------------------------------- server/auth/auth.go

  /** `encoded` is what hashPassword printed for the password, `id` and `token` are drawn fresh. */
  method Register(env: Env, db: Database, redis: UsernameCache?, faults: Faults, creds: Credentials,
                  id: UserId, encoded: string, token: string) returns (r: Response)
    requires db.Valid() && encoded != ""
    modifies db, redis
    ensures db.Valid()
    ensures Outcome(db.State(), CacheOf(redis), r) ==
            AccountRequests.Register(env, old(db.State()), old(CacheOf(redis)), faults, creds, id, encoded, token)
  {
    var name := NormalizeUsername(creds.username, env.lower);
    var valid := ValidUsername(name);
    if !valid {
      return Err(InvalidUsername);
    }
    if TrimSpace(creds.password) == "" {
      return Err(PasswordRequired);
    }
    var device := TrimSpace(creds.deviceId);
    if device == "" {
      return Err(DeviceIdRequired);
    }
    ValidTrimmed(name);
    if redis != null {
      var cached := redis.UsernameExists(name, faults.lookup);
      if cached.Failed? {
        return Err(Internal);
      }
      if cached.Hit? {
        return Err(UsernameTakenError);
      }
    }
    var available := db.IsUsernameAvailable(name);
    if available.Taken? {
      return Err(UsernameTakenError);
    }
    TrimTwice(creds.displayName);
    var created := db.CreateUser(id, name, TrimSpace(creds.displayName), encoded);
    if !created.Created? {
      return Err(UsernameTakenError);
    }
    if redis != null {
      var _ := redis.SetUsername(name, id, faults.store);
    }
    TrimTwice(creds.deviceId);
    TrimTwice(creds.deviceName);
    var stored := db.UpsertActiveToken(id, device, TrimSpace(creds.deviceName), Sha256(token));
    if !stored.Upserted? {
      return Err(Internal);
    }
    return Ok(AuthResult(id, device, TrimSpace(creds.deviceName), token));
  }

  method LoginByCredentials(env: Env, db: Database, creds: Credentials, token: string) returns (r: Response)
    requires db.Valid()
    modifies db
    ensures db.Valid()
    ensures Outcome(db.State(), None, r) == AccountRequests.LoginByCredentials(env, old(db.State()), creds, token)
  {
    var name := NormalizeUsername(creds.username, env.lower);
    var valid := ValidUsername(name);
    if !valid {
      return Err(InvalidCredentials);
    }
    if TrimSpace(creds.password) == "" {
      return Err(InvalidCredentials);
    }
    var device := TrimSpace(creds.deviceId);
    if device == "" {
      return Err(DeviceIdRequired);
    }
    ValidTrimmed(name);
    var u := db.GetUserByUsername(name);
    if !u.Found? {
      return Err(InvalidCredentials);
    }
    if !env.verify(creds.password, db.users[u.user].passwordHash) {
      return Err(InvalidCredentials);
    }
    var waiting := db.ExistsActiveByUserID(u.user);
    if waiting {
      return Err(AccountPendingDeletion);
    }
    TrimTwice(creds.deviceId);
    TrimTwice(creds.deviceName);
    var stored := db.UpsertActiveToken(u.user, device, TrimSpace(creds.deviceName), Sha256(token));
    if !stored.Upserted? {
      return Err(Internal);
    }
    return Ok(AuthResult(u.user, device, TrimSpace(creds.deviceName), token));
  }

  method LoginByToken(db: Database, now: Time, presented: string, token: string) returns (r: Response)
    requires db.Valid()
    modifies db
    ensures db.Valid()
    ensures Outcome(db.State(), None, r) == AccountRequests.LoginByToken(old(db.State()), now, presented, token)
  {
    var current := TrimSpace(presented);
    if current == "" {
      return Err(SessionTokenNeeded);
    }
    var found := db.GetActiveByTokenHash(Sha256(current), now);
    if found.None? {
      return Err(InvalidToken);
    }
    var row := db.tokens[found.value];
    var waiting := db.ExistsActiveByUserID(row.user);
    assert Accepting(db.State(), now, Sha256(current)) == {found.value};
    if waiting {
      return Err(AccountPendingDeletion);
    }
    var rotated := db.RotateToken(found.value, Sha256(token));
    if rotated.NotFound? {
      return Err(InvalidToken);
    }
    if rotated.Conflict? {
      return Err(Internal);
    }
    return Ok(AuthResult(row.user, row.device, row.deviceName, token));
  }

  // ---------------------------------------------------------------- server/auth/delete.go

  method VerifyDeleteCredentials(env: Env, db: Database, username: string, password: string) returns (u: Option<UserId>)
    requires db.Valid()
    ensures u == Identify(env, db.State(), username, password)
  {
    var name := NormalizeUsername(username, env.lower);
    var valid := ValidUsername(name);
    if !valid || TrimSpace(password) == "" {
      return None;
    }
    ValidTrimmed(name);
    var found := db.GetUserByUsername(name);
    if !found.Found? {
      return None;
    }
    if !env.verify(password, db.users[found.user].passwordHash) {
      return None;
    }
    return Some(found.user);
  }

  /** The clock is read at `readAt`, and the row is written at `now`. */
  method ScheduleAccountDeletion(env: Env, db: Database, readAt: Time, now: Time, username: string, password: string)
    returns (r: Response)
    requires db.Valid()
    modifies db
    ensures db.Valid()
    ensures Outcome(db.State(), None, r) == ScheduleDeletion(env, old(db.State()), readAt, now, username, password)
    ensures r == Err(InvalidCredentials) || r == Scheduled(readAt / 1_000_000 + 2_592_000)
  {
    var u := VerifyDeleteCredentials(env, db, username, password);
    if u.None? {
      return Err(InvalidCredentials);
    }
    var deleteAt := readAt + DELAY;
    var _ := db.Upsert(u.value, deleteAt, now);
    assert (readAt + 2_592_000 * 1_000_000) / 1_000_000 == readAt / 1_000_000 + 2_592_000;
    return Scheduled(deleteAt / SECOND);
  }

  method CancelAccountDeletion(env: Env, db: Database, username: string, password: string) returns (r: Response)
    requires db.Valid()
    modifies db
    ensures db.Valid()
    ensures Outcome(db.State(), None, r) == CancelDeletion(env, old(db.State()), username, password)
  {
    var u := VerifyDeleteCredentials(env, db, username, password);
    if u.None? {
      return Err(InvalidCredentials);
    }
    var cancelled, inProgress := db.CancelIfNotStarted(u.value);
    if inProgress {
      return Err(DeletionInProgress);
    }
    return Done;
  }

  ghost function KeysOf(redis: UsernameCache?): Cache
    reads redis
  {
    if redis == null then map[] else redis.keys
  }

  method RemoveUsernameFromCache(env: Env, redis: UsernameCache?, username: string)
    modifies redis
    ensures KeysOf(redis) == DropName(env, old(KeysOf(redis)), username)
  {
    if redis == null {
      return;
    }
    var name := NormalizeUsername(username, env.lower);
    var valid := ValidUsername(name);
    if valid {
      ValidTrimmed(name);
      var _ := redis.RemoveUsername(name);
    }
  }

  lemma ItemsSnoc(env: Env, s: Store, us: seq<UserId>, i: nat)
    requires i < |us|
    ensures ItemsEffect(env, s, us[..i + 1]) == ItemEffect(env, ItemsEffect(env, s, us[..i]), us[i])
  {
    assert us[..i + 1][..i] == us[..i];
  }

  /** The body of the worker's loop. */
  method ProcessItem(env: Env, db: Database, redis: UsernameCache?, u: UserId)
    requires db.Valid()
    modifies db, redis
    ensures db.Valid()
    ensures Store(db.State(), KeysOf(redis)) == ItemEffect(env, old(Store(db.State(), KeysOf(redis))), u)
  {
    var username := db.DeleteUserByID(u);
    if username.None? {
      NoCascade(old(db.State()), u);
      db.DeleteByUserID(u);
    } else {
      RemoveUsernameFromCache(env, redis, username.value);
    }
  }

  /** One round of the deletion worker, alone with the database: it removes exactly a batch of the
      earliest due users from tables and cache. */
  method ProcessDueAccountDeletions(env: Env, db: Database, redis: UsernameCache?, now: Time)
    returns (claimed: seq<Claimed>)
    requires db.Valid()
    modifies db, redis
    ensures db.Valid()
    ensures IsBatch(old(db.State()), now, Elements(UserList(claimed)), 50)
    ensures Store(db.State(), KeysOf(redis)) ==
            RoundEffect(env, old(Store(db.State(), KeysOf(redis))), Elements(UserList(claimed)))
  {
    ghost var before := Store(db.State(), KeysOf(redis));
    claimed := db.ClaimDue(50, now, {});
    assert Due(before.db, now) - {} == Due(before.db, now);
    ghost var us := UserList(claimed);
    ProcessAll(env, db, redis, claimed);
    ItemsAreRound(env, before.(db := Claim(before.db, Elements(us), now)), us);
    ClaimThenRound(env, before, Elements(us), now);
  }

  /** The worker's loop over its claimed items. */
  method ProcessAll(env: Env, db: Database, redis: UsernameCache?, claimed: seq<Claimed>)
    requires db.Valid()
    modifies db, redis
    ensures db.Valid()
    ensures Store(db.State(), KeysOf(redis)) ==
            ItemsEffect(env, old(Store(db.State(), KeysOf(redis))), UserList(claimed))
  {
    ghost var start, us := Store(db.State(), KeysOf(redis)), UserList(claimed);
    var i := 0;
    while i < |claimed|
      invariant 0 <= i <= |claimed| && db.Valid()
      invariant Store(db.State(), KeysOf(redis)) == ItemsEffect(env, start, us[..i])
    {
      ItemsSnoc(env, start, us, i);
      ProcessItem(env, db, redis, claimed[i].user);
      i := i + 1;
    }
    assert us[..|us|] == us;
  }

  // ---------------------------------------------------------------- server/middleware/auth.go

  datatype Gate = Passed | Unauthorized | InternalError

  /** The user of an authenticated session; `ids` reads the session's id. */
  ghost function UserOf(session: D.DeviceSession?, ids: string -> UserId): Option<UserId>
    reads session
  {
    if session != null && session.made != [] && D.Authenticated(session.State()) then Some(ids(session.userID))
    else None
  }

  /** `reachable` says whether the database answers. Next is called exactly as often as GateCalls says,
      and not at all when the database does not answer. */
  method AuthMiddleware(session: D.DeviceSession?, ids: string -> UserId, reachable: bool, db: Database)
    returns (gate: Gate, calls: nat)
    requires session != null ==> session.Valid()
    ensures calls == GateCalls(db.State(), if reachable then UserOf(session, ids) else None)
    ensures gate.Passed? <==> reachable && session != null && session.userID != "" && session.deviceID != ""
                              && ids(session.userID) !in db.pending
    ensures gate.Passed? <==> calls == 1
    ensures gate.InternalError? <==> UserOf(session, ids).Some? && !reachable
  {
    if session == null {
      return Unauthorized, 0;
    }
    var authenticated := session.IsAuthenticated();
    if !authenticated {
      return Unauthorized, 0;
    }
    if !reachable {
      return InternalError, 0;
    }
    var waiting := db.ExistsActiveByUserID(ids(session.userID));
    if waiting {
      return Unauthorized, 0;
    }
    return Passed, 1;
  }

  /** A request runs through its chain: what is entered is what a guarded request of the session's user
      enters, so nothing behind the gate while the user's row exists. */
  method HandleGuarded(session: D.DeviceSession?, ids: string -> UserId, reachable: bool, db: Database,
                       before: seq<nat>, after: seq<nat>) returns (log: seq<M.Entry>)
    requires session != null ==> session.Valid()
    ensures log == Guarded(db.State(), if reachable then UserOf(session, ids) else None, before, after)
  {
    var gate, calls := AuthMiddleware(session, ids, reachable, db);
    var c := new M.BaseContext(before + [calls] + after, true);
    c.Next();
    log := c.log;
  }
}
