/** The user states of server/core/session/session.go as objects, each operation proved against
    the registry value. */
module SessionStore {
  import opened Text
  import opened Sessions
  import opened SessionRegistry

  lemma ValuesWithout<V>(m: map<string, V>, d: string, v: V)
    requires d in m
    ensures v in m.Values <==> v == m[d] || v in (m - {d}).Values
  {
    if v in m.Values {
      var e :| e in m && m[e] == v;
      assert e != d ==> e in m - {d} && (m - {d})[e] == v;
    }
  }

  class UserState {
    var devices: map<string, DeviceSession>

    constructor ()
      ensures devices == map[]
    {
      devices := map[];
    }

    /** Empties the device map under the state's lock. */
    method TakeAll() returns (sessions: seq<DeviceSession>)
      modifies this
      ensures devices == map[] && |sessions| == |old(devices)|
      ensures forall s :: s in sessions <==> s in old(devices).Values
    {
      sessions := [];
      while devices != map[]
        invariant forall s :: s in old(devices).Values <==> s in sessions || s in devices.Values
        invariant |sessions| + |devices| == |old(devices)|
        decreases |devices|
      {
        assert devices.Keys != {};
        var d :| d in devices;
        forall s: DeviceSession {
          ValuesWithout(devices, d, s);
        }
        assert (devices - {d}).Keys == devices.Keys - {d};
        sessions := sessions + [devices[d]];
        devices := devices - {d};
      }
    }
  }

  ghost function Channels(all: set<DeviceSession>): (channels: set<Channel>)
    reads all
    ensures forall s :: s in all ==> forall c :: c in s.made ==> c in channels
  {
    set s, c | s in all && c in s.made :: c
  }

  ghost predicate NoneShared(s: DeviceSession, t: DeviceSession)
    reads s, t
  {
    forall c :: c in s.made ==> c !in t.made
  }

  /** Every session is valid, and no two sessions share a channel. */
  ghost predicate Apart(all: set<DeviceSession>)
    reads all, Channels(all)
  {
    && (forall s :: s in all ==> s.Valid())
    && (forall s, t :: s in all && t in all && s != t ==> NoneShared(s, t))
  }

  ghost function SessionValues(all: set<DeviceSession>): map<DeviceSession, Session>
    reads all
    requires forall s :: s in all ==> s.made != []
  {
    map s | s in all :: s.State()
  }

  ghost function Revoking(values: map<DeviceSession, Session>, sessions: seq<DeviceSession>)
    : map<DeviceSession, Session>
  {
    map s | s in values :: if s in sessions then AfterRevoke(values[s]) else values[s]
  }

  ghost function Authenticating(values: map<DeviceSession, Session>, s: DeviceSession,
                                user: string, device: string, name: string)
    : map<DeviceSession, Session>
    requires s in values
  {
    values[s := AfterAuthenticate(values[s], user, device, name)]
  }

  lemma RevokingNone(values: map<DeviceSession, Session>)
    ensures Revoking(values, []) == values
  {
  }

  lemma RevokingSnoc(values: map<DeviceSession, Session>, sessions: seq<DeviceSession>, s: DeviceSession)
    ensures Revoking(Revoking(values, sessions), [s]) == Revoking(values, sessions + [s])
  {
  }

  twostate lemma SessionUntouched(s: DeviceSession)
    requires old(s.Valid()) && unchanged(s) && unchanged(s.made)
    ensures s.Valid() && s.State() == old(s.State()) && s.made == old(s.made)
  {
    assert forall i :: 0 <= i < |s.made| ==> s.made[i] in s.made;
  }

  /** What touches neither the sessions nor their channels keeps them apart. */
  twostate lemma Untouched(all: set<DeviceSession>)
    requires old(Apart(all)) && unchanged(all) && unchanged(old(Channels(all)))
    ensures Apart(all) && SessionValues(all) == old(SessionValues(all)) && Channels(all) == old(Channels(all))
  {
    forall s | s in all ensures s.Valid() && s.State() == old(s.State()) {
      assert old(s.Valid()) && forall c :: c in s.made ==> c in old(Channels(all));
      SessionUntouched(s);
    }
  }

  /** Revokes every listed session, and no other session of `all`. */
  method RevokeAll(sessions: seq<DeviceSession>, ghost all: set<DeviceSession>)
    requires Apart(all) && forall s :: s in sessions ==> s in all
    modifies all, Channels(all)
    ensures Apart(all)
    ensures SessionValues(all) == Revoking(old(SessionValues(all)), sessions)
  {
    ghost var before := SessionValues(all);
    RevokingNone(before);
    for i := 0 to |sessions|
      invariant Apart(all) && Channels(all) == old(Channels(all))
      invariant SessionValues(all) == Revoking(before, sessions[..i])
    {
      RevokeNext(sessions, i, all, before);
    }
    assert sessions[..|sessions|] == sessions;
  }

  /** One turn of the loop. */
  method RevokeNext(sessions: seq<DeviceSession>, i: nat, ghost all: set<DeviceSession>,
                    ghost before: map<DeviceSession, Session>)
    requires i < |sessions| && sessions[i] in all && Apart(all)
    requires SessionValues(all) == Revoking(before, sessions[..i])
    modifies sessions[i], Channels(all)
    ensures Apart(all) && Channels(all) == old(Channels(all))
    ensures SessionValues(all) == Revoking(before, sessions[..i + 1])
  {
    assert sessions[..i + 1] == sessions[..i] + [sessions[i]];
    RevokingSnoc(before, sessions[..i], sessions[i]);
    RevokeOne(sessions[i], all);
  }

  /** Revoking one session leaves the others as they are. */
  method RevokeApart(s: DeviceSession, ghost all: set<DeviceSession>)
    requires Apart(all) && s in all
    modifies s, s.revokedCh
    ensures Apart(all) && forall t :: t in all ==> t.made == old(t.made)
    ensures s.State() == AfterRevoke(old(s.State())) && forall t :: t in all && t != s ==> t.State() == old(t.State())
  {
    assert s.Valid() && s.revokedCh in s.made;
    s.Revoke();
    forall t | t in all && t != s
      ensures t.Valid() && t.State() == old(t.State()) && t.made == old(t.made) && NoneShared(s, t) && NoneShared(t, s)
    {
      assert old(t.Valid()) && old(NoneShared(s, t));
      SessionUntouched(t);
    }
  }

  method AuthenticateApart(s: DeviceSession, user: string, device: string, name: string, ghost all: set<DeviceSession>)
    requires Apart(all) && s in all
    modifies s
    ensures Apart(all)
    ensures s.State() == AfterAuthenticate(old(s.State()), user, device, name)
    ensures forall t :: t in all && t != s ==> t.State() == old(t.State())
  {
    assert s.Valid();
    s.Authenticate(user, device, name);
    forall t | t in all && t != s
      ensures t.Valid() && t.State() == old(t.State()) && NoneShared(s, t) && NoneShared(t, s)
    {
      assert old(t.Valid()) && old(NoneShared(s, t));
      SessionUntouched(t);
      assert s.made == old(s.made) || s.made == old(s.made) + [s.made[|s.made| - 1]];
    }
  }

  lemma OneUpdated(before: map<DeviceSession, Session>, after: map<DeviceSession, Session>, s: DeviceSession)
    requires s in before && after.Keys == before.Keys && forall t :: t in before && t != s ==> after[t] == before[t]
    ensures after == before[s := after[s]]
    ensures after[s] == AfterRevoke(before[s]) ==> after == Revoking(before, [s])
  {
  }

  method AuthenticateOne(s: DeviceSession, user: string, device: string, name: string, ghost all: set<DeviceSession>)
    requires Apart(all) && s in all
    modifies s
    ensures Apart(all)
    ensures SessionValues(all) == Authenticating(old(SessionValues(all)), s, user, device, name)
  {
    ghost var before := SessionValues(all);
    AuthenticateApart(s, user, device, name, all);
    OneUpdated(before, SessionValues(all), s);
  }

  method RevokeOne(s: DeviceSession, ghost all: set<DeviceSession>)
    requires Apart(all) && s in all
    modifies s, Channels(all)
    ensures Apart(all) && Channels(all) == old(Channels(all))
    ensures SessionValues(all) == Revoking(old(SessionValues(all)), [s])
  {
    ghost var before := SessionValues(all);
    assert s.Valid() && s.revokedCh in s.made;
    RevokeApart(s, all);
    OneUpdated(before, SessionValues(all), s);
  }

  /** The device maps after Authenticate has worked on the user states. */
  ghost function Listing(states: map<string, map<string, DeviceSession>>, u: string, d: string, s: DeviceSession,
                         known: bool)
    : map<string, map<string, DeviceSession>>
  {
    if u == "" || d == "" || (u !in states && !known) then states
    else if u in states then states[u := states[u][d := s]]
    else states[u := map[d := s]]
  }

  /** What a login comes to, table and sessions apart. */
  lemma LoginValue(r: Registry, s: DeviceSession, user: string, device: string, name: string, known: bool)
    requires s in r.sessions
    ensures var u, d, e := TrimSpace(user), TrimSpace(device), Login(s, user, device, name, known);
      SessionRegistry.Apply(r, e) == Registry(
        Listing(r.states, u, d, s, known),
        Authenticating(r.sessions, s, user, device, name))
  {
  }

  lemma InvalidateValue(r: Registry, userID: string, sessions: seq<DeviceSession>)
    requires var u := TrimSpace(userID); forall s :: s in sessions <==> u != "" && s in Devices(r, u).Values
    ensures SessionRegistry.Apply(r, Invalidate(userID)) == Registry(
      if TrimSpace(userID) == "" then r.states else r.states - {TrimSpace(userID)},
      Revoking(r.sessions, sessions))
  {
    var u := TrimSpace(userID);
    if u !in r.states {
      assert r.states - {u} == r.states;
    }
  }

  class UserStates {
    var table: map<string, UserState>

    constructor ()
      ensures table == map[]
    {
      table := map[];
    }

    /** No two users share a state, and the states list sessions of `all` only. */
    ghost predicate Valid(all: set<DeviceSession>)
      reads this, table.Values
    {
      && (forall u, v :: u in table && v in table && u != v ==> table[u] != table[v])
      && (forall u, d :: u in table && d in table[u].devices ==> table[u].devices[d] in all)
    }

    ghost function States(): map<string, map<string, DeviceSession>>
      reads this, table.Values
    {
      map u | u in table :: table[u].devices
    }

    ghost function View(all: set<DeviceSession>): Registry
      reads this, table.Values, all
      requires forall s :: s in all ==> s.made != []
    {
      Registry(States(), SessionValues(all))
    }

    twostate lemma TableUntouched(all: set<DeviceSession>)
      requires old(Valid(all)) && unchanged(this) && unchanged(old(table.Values))
      ensures Valid(all) && States() == old(States())
    {
    }

    /** Takes the user out of the table and hands out the sessions it listed. */
    method DetachUserSessions(userID: string, ghost all: set<DeviceSession>) returns (sessions: seq<DeviceSession>)
      requires Valid(all)
      modifies this, table.Values
      ensures Valid(all)
      ensures var u := TrimSpace(userID);
        && States() == (if u == "" then old(States()) else old(States()) - {u})
        && (forall s :: s in sessions <==> u != "" && u in old(table) && s in old(table[u].devices).Values)
      ensures forall s :: s in sessions ==> s in all
    {
      var u := TrimSpace(userID);
      if u == "" || u !in table {
        return [];
      }
      sessions := table[u].TakeAll();
      table := table - {u};
    }

    method InvalidateUserSessions(userID: string, ghost all: set<DeviceSession>)
      requires Valid(all) && Apart(all)
      modifies this, table.Values, all, Channels(all)
      ensures Valid(all) && Apart(all)
      ensures View(all) == SessionRegistry.Apply(old(View(all)), Invalidate(userID))
    {
      ghost var r := View(all);
      var sessions := DetachUserSessions(userID, all);
      Untouched(all);
      label detached:
      RevokeAll(sessions, all);
      TableUntouched@detached(all);
      InvalidateValue(r, userID, sessions);
    }

    /** `known`: whether looking the user up in the database succeeds. */
    method Authenticate(s: DeviceSession, user: string, device: string, name: string, known: bool,
                        ghost all: set<DeviceSession>)
      requires Valid(all) && Apart(all) && s in all
      modifies this, table.Values, s
      ensures Valid(all) && Apart(all)
      ensures View(all) == SessionRegistry.Apply(old(View(all)), Login(s, user, device, name, known))
    {
      ghost var r := View(all);
      AuthenticateHalves(s, user, device, name, known, all);
      LoginValue(r, s, user, device, name, known);
    }

    /** What it does to the user states and what it does to the sessions, apart. */
    method AuthenticateHalves(s: DeviceSession, user: string, device: string, name: string, known: bool,
                              ghost all: set<DeviceSession>)
      requires Valid(all) && Apart(all) && s in all
      modifies this, table.Values, s
      ensures Valid(all) && Apart(all)
      ensures States() == Listing(old(States()), TrimSpace(user), TrimSpace(device), s, known)
      ensures SessionValues(all) == Authenticating(old(SessionValues(all)), s, user, device, name)
    {
      AuthenticateSession(s, user, device, name, all);
      RegisterDevice(s, TrimSpace(user), TrimSpace(device), known, all);
    }

    method AuthenticateSession(s: DeviceSession, user: string, device: string, name: string,
                               ghost all: set<DeviceSession>)
      requires Valid(all) && Apart(all) && s in all
      modifies s
      ensures Valid(all) && Apart(all) && States() == old(States())
      ensures SessionValues(all) == Authenticating(old(SessionValues(all)), s, user, device, name)
    {
      AuthenticateOne(s, user, device, name, all);
      TableUntouched(all);
    }

    method RegisterDevice(s: DeviceSession, u: string, d: string, known: bool, ghost all: set<DeviceSession>)
      requires Valid(all) && Apart(all) && s in all
      modifies this, table.Values
      ensures Valid(all) && Apart(all) && SessionValues(all) == old(SessionValues(all))
      ensures States() == Listing(old(States()), u, d, s, known)
    {
      Register(s, u, d, known, all);
      Untouched(all);
    }

    /** The part of Authenticate that works on the user states. */
    method Register(s: DeviceSession, u: string, d: string, known: bool, ghost all: set<DeviceSession>)
      requires Valid(all) && s in all
      modifies this, table.Values
      ensures Valid(all)
      ensures States() == Listing(old(States()), u, d, s, known)
    {
      if u == "" || d == "" {
        return;
      }
      if u in table {
        PutDevice(s, u, d, all);
      } else if known {
        var state := new UserState();
        state.devices := state.devices[d := s];
        table := table[u := state];
      }
    }

    /** The insertion under the lock of the user's state. */
    method PutDevice(s: DeviceSession, u: string, d: string, ghost all: set<DeviceSession>)
      requires Valid(all) && s in all && u in table
      modifies table[u]
      ensures Valid(all) && States() == old(States())[u := old(States())[u][d := s]]
    {
      var state := table[u];
      state.devices := state.devices[d := s];
    }
  }
}
