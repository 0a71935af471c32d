/** The Postgres tables of the account service as values, and every SQL statement
    that changes them as a total function from tables to tables.

    Identifiers are values, time counts microseconds on the one clock that the server
    and the database share, and the token hash is an injective constructor. */
module AccountTables {
  import opened Options

  type UserId = nat
  type TokenId = nat
  type Time = nat

  /** SHA-256 of a session token, taken to be injective. */
  datatype Hash = Sha256(token: string)

  const SECOND: Time := 1_000_000

  /** AccountDeletionDelay: thirty days. */
  const DELAY: Time := 30 * 24 * 60 * 60 * SECOND

  /** Rows claimed per worker round. */
  const BATCH: nat := 50

  datatype User = User(username: string, displayName: string, passwordHash: string)

  datatype TokenRow = TokenRow(
    user: UserId, hash: Hash, device: string, deviceName: string,
    expiresAt: Option<Time>, revokedAt: Option<Time>)

  datatype PendingRow = PendingRow(scheduledAt: Time, deleteAt: Time, startedAt: Option<Time>)

  datatype Tables = Tables(
    users: map<UserId, User>,
    tokens: map<TokenId, TokenRow>,
    pending: map<UserId, PendingRow>,
    nextToken: TokenId)

  const EMPTY := Tables(map[], map[], map[], 1)

  // ---------------------------------------------------------------- users

  predicate UsernameTaken(t: Tables, name: string) {
    exists u :: u in t.users && t.users[u].username == name
  }

  /** INSERT INTO users: refused by either uniqueness constraint. */
  function InsertUser(t: Tables, id: UserId, user: User): Tables {
    if id in t.users || UsernameTaken(t, user.username) then t
    else t.(users := t.users[id := user])
  }

  /** DELETE FROM users, cascading to the user's tokens and pending row. */
  function DeleteUser(t: Tables, u: UserId): Tables {
    Tables(
      t.users - {u},
      map k | k in t.tokens && t.tokens[k].user != u :: t.tokens[k],
      t.pending - {u},
      t.nextToken)
  }

  // ---------------------------------------------------------------- user_tokens

  predicate HasDevice(t: Tables, device: string) {
    exists k :: k in t.tokens && t.tokens[k].device == device
  }

  /** Foreign key on the user and uniqueness of the hash. */
  predicate TokenAdmitted(t: Tables, user: UserId, device: string, hash: Hash) {
    && user in t.users
    && forall k :: k in t.tokens && t.tokens[k].hash == hash ==> t.tokens[k].device == device
  }

  /** The row an upsert leaves for `device`; a conflicting row keeps its id and its expiry. */
  function Overwrite(row: TokenRow, user: UserId, deviceName: string, hash: Hash): TokenRow {
    row.(user := user, hash := hash, deviceName := deviceName, revokedAt := None)
  }

  /** INSERT INTO user_tokens ... ON CONFLICT (device_id) DO UPDATE. The serial advances
      on every attempt. */
  function UpsertToken(t: Tables, user: UserId, device: string, deviceName: string, hash: Hash): (t': Tables)
    ensures t'.users == t.users && t'.pending == t.pending
  {
    var t1 := t.(nextToken := t.nextToken + 1);
    if !TokenAdmitted(t, user, device, hash) then t1
    else if HasDevice(t, device) then
      t1.(tokens := map k | k in t.tokens ::
        if t.tokens[k].device == device then Overwrite(t.tokens[k], user, deviceName, hash) else t.tokens[k])
    else
      t1.(tokens := t.tokens[t.nextToken := TokenRow(user, hash, device, deviceName, None, None)])
  }

  predicate RotationAdmitted(t: Tables, id: TokenId, hash: Hash) {
    && id in t.tokens
    && forall k :: k in t.tokens && t.tokens[k].hash == hash ==> k == id
  }

  /** UPDATE user_tokens SET token_hash WHERE token_id: keyed by the id alone. */
  function RotateToken(t: Tables, id: TokenId, hash: Hash): (t': Tables)
    ensures t'.users == t.users && t'.pending == t.pending
  {
    if RotationAdmitted(t, id, hash) then t.(tokens := t.tokens[id := t.tokens[id].(hash := hash)])
    else t
  }

  predicate Active(row: TokenRow, now: Time) {
    row.revokedAt.None? && (row.expiresAt.None? || row.expiresAt.value > now)
  }

  /** Rows that GetActiveByTokenHash may return. */
  function Accepting(t: Tables, now: Time, hash: Hash): set<TokenId> {
    set k | k in t.tokens && t.tokens[k].hash == hash && Active(t.tokens[k], now)
  }

  // ---------------------------------------------------------------- pending_account_deletions

  /** INSERT ... ON CONFLICT (user_id) DO UPDATE: rescheduling clears started_at. */
  function Schedule(t: Tables, u: UserId, deleteAt: Time, now: Time): Tables {
    if u in t.users then t.(pending := t.pending[u := PendingRow(now, deleteAt, None)]) else t
  }

  predicate Cancellable(t: Tables, u: UserId) {
    u in t.pending && t.pending[u].startedAt.None?
  }

  /** DELETE ... WHERE user_id AND started_at IS NULL: the first statement of a cancel. */
  function Cancel(t: Tables, u: UserId): Tables {
    if Cancellable(t, u) then t.(pending := t.pending - {u}) else t
  }

  function DeletePending(t: Tables, u: UserId): Tables {
    t.(pending := t.pending - {u})
  }

  function Due(t: Tables, now: Time): set<UserId> {
    set u | u in t.pending && t.pending[u].deleteAt <= now && t.pending[u].startedAt.None?
  }

  /** The UPDATE of ClaimDue on the rows its sub-select locked. */
  function Claim(t: Tables, chosen: set<UserId>, now: Time): Tables {
    t.(pending := map u | u in t.pending ::
      if u in chosen then t.pending[u].(startedAt := Some(now)) else t.pending[u])
  }

  // ---------------------------------------------------------------- constraints

  ghost predicate UniqueUsernames(t: Tables) {
    forall u, v :: u in t.users && v in t.users && t.users[u].username == t.users[v].username ==> u == v
  }

  ghost predicate UniqueDevices(t: Tables) {
    forall j, k :: j in t.tokens && k in t.tokens && t.tokens[j].device == t.tokens[k].device ==> j == k
  }

  ghost predicate UniqueHashes(t: Tables) {
    forall j, k :: j in t.tokens && k in t.tokens && t.tokens[j].hash == t.tokens[k].hash ==> j == k
  }

  /** Token rows belong to users, have serial ids, and never expire nor are revoked. */
  ghost predicate TokensSound(t: Tables) {
    forall k :: k in t.tokens ==>
      t.tokens[k].user in t.users && 1 <= k < t.nextToken &&
      t.tokens[k].expiresAt.None? && t.tokens[k].revokedAt.None?
  }

  /** What the schema's constraints and the statements keep. */
  ghost predicate Consistent(t: Tables) {
    && UniqueUsernames(t) && UniqueDevices(t) && UniqueHashes(t) && TokensSound(t)
    && t.pending.Keys <= t.users.Keys
    && 1 <= t.nextToken
  }

  lemma UserStatementsConsistent(t: Tables, id: UserId, user: User)
    requires Consistent(t)
    ensures Consistent(InsertUser(t, id, user))
    ensures Consistent(DeleteUser(t, id))
  {
  }

  /** How an admitted upsert leaves each row: the device's row carries the new owner and hash,
      every other row is as it was. */
  lemma UpsertTokenRows(t: Tables, user: UserId, device: string, deviceName: string, hash: Hash, k: TokenId)
    requires Consistent(t) && TokenAdmitted(t, user, device, hash)
    ensures var t' := UpsertToken(t, user, device, deviceName, hash);
      && (k in t'.tokens <==> k in t.tokens || (k == t.nextToken && !HasDevice(t, device)))
      && (k in t'.tokens && t'.tokens[k].device == device ==>
            t'.tokens[k].user == user && t'.tokens[k].hash == hash &&
            t'.tokens[k].expiresAt.None? && t'.tokens[k].revokedAt.None?)
      && (k in t'.tokens && t'.tokens[k].device != device ==> k in t.tokens && t'.tokens[k] == t.tokens[k])
      && (k in t.tokens ==> t'.tokens[k].device == t.tokens[k].device)
  {
  }

  lemma UpsertTokenConsistent(t: Tables, user: UserId, device: string, deviceName: string, hash: Hash)
    requires Consistent(t)
    ensures Consistent(UpsertToken(t, user, device, deviceName, hash))
  {
    if TokenAdmitted(t, user, device, hash) {
      var t' := UpsertToken(t, user, device, deviceName, hash);
      forall k: TokenId | k in t'.tokens
        ensures t'.tokens[k].user in t'.users && 1 <= k < t'.nextToken
        ensures t'.tokens[k].expiresAt.None? && t'.tokens[k].revokedAt.None?
      {
        UpsertTokenRows(t, user, device, deviceName, hash, k);
      }
      forall j, k | j in t'.tokens && k in t'.tokens
        ensures t'.tokens[j].device == t'.tokens[k].device ==> j == k
        ensures t'.tokens[j].hash == t'.tokens[k].hash ==> j == k
      {
        UpsertTokenRows(t, user, device, deviceName, hash, j);
        UpsertTokenRows(t, user, device, deviceName, hash, k);
      }
    }
  }

  lemma RotateTokenConsistent(t: Tables, id: TokenId, hash: Hash)
    requires Consistent(t)
    ensures Consistent(RotateToken(t, id, hash))
  {
    var t' := RotateToken(t, id, hash);
    assert TokensSound(t');
    assert UniqueDevices(t');
  }

  lemma PendingStatementsConsistent(t: Tables, u: UserId, at: Time, now: Time)
    requires Consistent(t)
    ensures Consistent(Schedule(t, u, at, now))
    ensures Consistent(Cancel(t, u))
    ensures Consistent(DeletePending(t, u))
  {
  }

  lemma ClaimConsistent(t: Tables, chosen: set<UserId>, now: Time)
    requires Consistent(t)
    ensures Consistent(Claim(t, chosen, now))
  {
  }

  /** Without a user row there is nothing for a deletion to cascade to. */
  lemma NoCascade(t: Tables, u: UserId)
    requires Consistent(t) && u !in t.users
    ensures DeleteUser(t, u) == t && DeletePending(t, u) == t
  {
    assert DeleteUser(t, u).tokens == t.tokens;
  }
}
