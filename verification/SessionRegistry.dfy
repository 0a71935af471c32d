/** The per-user registry of sessions of server/core/session/session.go, each operation atomic,
    measured against the history of operations. */
module SessionRegistry {
  import opened Options
  import opened Text
  import opened Sessions

  /** Sessions are told apart by their reference. */
  type Sid = DeviceSession

  datatype Registry = Registry(states: map<string, map<string, Sid>>, sessions: map<Sid, Session>)

  const EMPTY := Registry(map[], map[])

  datatype Event =
    /** `known`: whether looking the user up in the database would succeed. */
    | Login(s: Sid, userID: string, deviceID: string, deviceName: string, known: bool)
    | Invalidate(userID: string)

  function SessionOf(r: Registry, s: Sid): Session {
    if s in r.sessions then r.sessions[s] else NEW_SESSION
  }

  function Devices(r: Registry, u: string): map<string, Sid> {
    if u in r.states then r.states[u] else map[]
  }

  function Entry(r: Registry, u: string, d: string): Option<Sid> {
    if d in Devices(r, u) then Some(Devices(r, u)[d]) else None
  }

  /** Authenticate reaches the insertion into the device map of (u, d). */
  predicate Registers(r: Registry, e: Event, u: string, d: string) {
    && e.Login? && u == TrimSpace(e.userID) != "" && d == TrimSpace(e.deviceID) != ""
    && (u in r.states || e.known)
  }

  /** A login that passes the guard on empty ids. */
  predicate Effective(e: Event) {
    e.Login? && TrimSpace(e.userID) != "" && TrimSpace(e.deviceID) != ""
  }

  predicate Detaches(r: Registry, e: Event, u: string) {
    e.Invalidate? && u == TrimSpace(e.userID) != "" && u in r.states
  }

  function Apply(r: Registry, e: Event): Registry {
    match e
    case Login(s, userID, deviceID, deviceName, _) =>
      var u, d := TrimSpace(userID), TrimSpace(deviceID);
      Registry(
        if Registers(r, e, u, d) then r.states[u := Devices(r, u)[d := s]] else r.states,
        r.sessions[s := AfterAuthenticate(SessionOf(r, s), userID, deviceID, deviceName)])
    case Invalidate(userID) =>
      var u := TrimSpace(userID);
      if !Detaches(r, e, u) then r
      else Registry(
        r.states - {u},
        map s | s in r.sessions :: if s in Devices(r, u).Values then AfterRevoke(r.sessions[s]) else r.sessions[s])
  }

  datatype History = History(rs: seq<Registry>, es: seq<Event>)

  ghost predicate Run(h: History) {
    && |h.rs| == |h.es| + 1 && h.rs[0] == EMPTY
    && forall k {:trigger h.es[k]} :: 0 <= k < |h.es| ==> h.rs[k + 1] == Apply(h.rs[k], h.es[k])
  }

  // ---------------------------------------------------------------- the registry equals its history

  /** The session of the latest registered Authenticate for (u, d) since u's last detach, judged
      from the events. */
  ghost function Latest(h: History, n: nat, u: string, d: string): Option<Sid>
    requires |h.rs| == |h.es| + 1 && n <= |h.es|
  {
    if n == 0 then None
    else if Registers(h.rs[n - 1], h.es[n - 1], u, d) then Some(h.es[n - 1].s)
    else if Detaches(h.rs[n - 1], h.es[n - 1], u) then None
    else Latest(h, n - 1, u, d)
  }

  lemma StepEntry(r: Registry, e: Event, u: string, d: string)
    ensures Entry(Apply(r, e), u, d) ==
            if Registers(r, e, u, d) then Some(e.s) else if Detaches(r, e, u) then None else Entry(r, u, d)
  {
  }

  /** Every entry is the session of the latest registered Authenticate since the last detach. */
  lemma {:induction false} EntryIsLatest(h: History, n: nat, u: string, d: string)
    requires Run(h) && n <= |h.es|
    ensures Entry(h.rs[n], u, d) == Latest(h, n, u, d)
  {
    if n > 0 {
      EntryIsLatest(h, n - 1, u, d);
      assert h.rs[n] == Apply(h.rs[n - 1], h.es[n - 1]);
      StepEntry(h.rs[n - 1], h.es[n - 1], u, d);
    }
  }

  /** The login an entry stems from. */
  lemma {:induction false} EntryOrigin(h: History, n: nat, u: string, d: string) returns (i: nat)
    requires Run(h) && n <= |h.es| && Entry(h.rs[n], u, d).Some?
    ensures i < n && Registers(h.rs[i], h.es[i], u, d) && h.es[i].s == Entry(h.rs[n], u, d).value
  {
    assert h.rs[n] == Apply(h.rs[n - 1], h.es[n - 1]);
    StepEntry(h.rs[n - 1], h.es[n - 1], u, d);
    if Registers(h.rs[n - 1], h.es[n - 1], u, d) {
      i := n - 1;
    } else {
      i := EntryOrigin(h, n - 1, u, d);
    }
  }

  lemma ListedIff(r: Registry, u: string, s: Sid)
    ensures s in Devices(r, u).Values <==> exists d :: Entry(r, u, d) == Some(s)
  {
    if s in Devices(r, u).Values {
      var d :| d in Devices(r, u) && Devices(r, u)[d] == s;
      assert Entry(r, u, d) == Some(s);
    }
  }

  /** Some device of u was last authenticated by s. */
  ghost predicate LatestForSome(h: History, n: nat, u: string, s: Sid)
    requires |h.rs| == |h.es| + 1 && n <= |h.es|
  {
    exists d :: Latest(h, n, u, d) == Some(s)
  }

  /** Invalidation revokes exactly the sessions that are the latest of some device of the user, and
      leaves every other session alone. */
  lemma InvalidateRevokesLatest(h: History, n: nat, u: string, s: Sid)
    requires Run(h) && n < |h.es| && h.es[n].Invalidate? && u == TrimSpace(h.es[n].userID) != ""
    requires s in h.rs[n].sessions
    ensures s in h.rs[n + 1].sessions
    ensures h.rs[n + 1].sessions[s] ==
            if LatestForSome(h, n, u, s) then AfterRevoke(h.rs[n].sessions[s]) else h.rs[n].sessions[s]
  {
    assert h.rs[n + 1] == Apply(h.rs[n], h.es[n]);
    ListedIff(h.rs[n], u, s);
    forall d ensures Entry(h.rs[n], u, d) == Latest(h, n, u, d) { EntryIsLatest(h, n, u, d); }
  }

  lemma StepSound(r: Registry, e: Event, s: Sid)
    requires Sound(SessionOf(r, s))
    ensures Sound(SessionOf(Apply(r, e), s))
  {
  }

  lemma {:induction false} RegistrySound(h: History, n: nat, s: Sid)
    requires Run(h) && n <= |h.es|
    ensures Sound(SessionOf(h.rs[n], s))
  {
    if n > 0 {
      RegistrySound(h, n - 1, s);
      assert h.rs[n] == Apply(h.rs[n - 1], h.es[n - 1]);
      StepSound(h.rs[n - 1], h.es[n - 1], s);
    }
  }

  /** A session survives the invalidation of u, still authenticated as u, if and only if it was so
      before and is not the latest of any device of u. */
  lemma LeftBehindIff(h: History, n: nat, u: string, s: Sid)
    requires Run(h) && n < |h.es| && h.es[n].Invalidate? && u == TrimSpace(h.es[n].userID) != ""
    requires s in h.rs[n].sessions
    ensures SessionOf(h.rs[n + 1], s).user == u <==>
            SessionOf(h.rs[n], s).user == u && !LatestForSome(h, n, u, s)
  {
    InvalidateRevokesLatest(h, n, u, s);
    RegistrySound(h, n, s);
  }

  // ---------------------------------------------------------------- who is signed in

  ghost predicate SignsIn(e: Event, s: Sid, u: string, d: string, m: string) {
    && e.Login? && e.s == s && !Spaces(e.userID) && !Spaces(e.deviceID)
    && u == TrimSpace(e.userID) && d == TrimSpace(e.deviceID) && m == TrimSpace(e.deviceName)
  }

  /** Event j signs s in, or signs it out: it invalidates a user of one of whose devices s is the latest. */
  ghost predicate Changes(h: History, j: nat, s: Sid)
    requires |h.rs| == |h.es| + 1 && j < |h.es|
  {
    || (h.es[j].Login? && h.es[j].s == s && !Spaces(h.es[j].userID) && !Spaces(h.es[j].deviceID))
    || (h.es[j].Invalidate? && !Spaces(h.es[j].userID) && LatestForSome(h, j, TrimSpace(h.es[j].userID), s))
  }

  ghost predicate SignedInSince(h: History, i: nat, n: nat, s: Sid, u: string, d: string, m: string)
    requires |h.rs| == |h.es| + 1 && i < n <= |h.es|
  {
    SignsIn(h.es[i], s, u, d, m) && forall j :: i < j < n ==> !Changes(h, j, s)
  }

  ghost predicate SignedIn(h: History, n: nat, s: Sid, u: string, d: string, m: string)
    requires |h.rs| == |h.es| + 1 && n <= |h.es|
  {
    exists i :: 0 <= i < n && SignedInSince(h, i, n, s, u, d, m)
  }

  ghost predicate Identity(x: Session, u: string, d: string, m: string) {
    Authenticated(x) && x.user == u && x.device == d && x.name == m
  }

  lemma SinceStep(h: History, i: nat, n: nat, s: Sid, u: string, d: string, m: string)
    requires |h.rs| == |h.es| + 1 && i + 1 < n <= |h.es|
    ensures SignedInSince(h, i, n, s, u, d, m) <==> SignedInSince(h, i, n - 1, s, u, d, m) && !Changes(h, n - 1, s)
  {
    if SignedInSince(h, i, n - 1, s, u, d, m) && !Changes(h, n - 1, s) {
      assert forall j :: i < j < n ==> !Changes(h, j, s);
    }
  }

  lemma SignedInStep(h: History, n: nat, s: Sid, u: string, d: string, m: string)
    requires |h.rs| == |h.es| + 1 && 0 < n <= |h.es|
    ensures SignedIn(h, n, s, u, d, m) <==>
      SignsIn(h.es[n - 1], s, u, d, m) || (SignedIn(h, n - 1, s, u, d, m) && !Changes(h, n - 1, s))
  {
    if SignsIn(h.es[n - 1], s, u, d, m) {
      assert SignedInSince(h, n - 1, n, s, u, d, m);
    } else if SignedIn(h, n, s, u, d, m) {
      var i :| 0 <= i < n && SignedInSince(h, i, n, s, u, d, m);
      SinceStep(h, i, n, s, u, d, m);
    } else if SignedIn(h, n - 1, s, u, d, m) {
      var i :| 0 <= i < n - 1 && SignedInSince(h, i, n - 1, s, u, d, m);
      SinceStep(h, i, n, s, u, d, m);
    }
  }

  lemma StepIdentity(h: History, n: nat, s: Sid, u: string, d: string, m: string)
    requires Run(h) && n < |h.es|
    ensures Identity(SessionOf(h.rs[n + 1], s), u, d, m) <==>
      SignsIn(h.es[n], s, u, d, m) || (Identity(SessionOf(h.rs[n], s), u, d, m) && !Changes(h, n, s))
  {
    var e := h.es[n];
    assert h.rs[n + 1] == Apply(h.rs[n], e);
    RegistrySound(h, n, s);
    TrimBlank(e.userID);
    if e.Login? {
      TrimBlank(e.deviceID);
    } else if s in h.rs[n].sessions && TrimSpace(e.userID) != "" {
      InvalidateRevokesLatest(h, n, TrimSpace(e.userID), s);
    }
  }

  /** A session is authenticated as (u, d), with device name m, if and only if its last login with both ids
      given carried them, spaces trimmed, and no invalidation since has been of a user one of whose devices
      it was then the latest to log in. */
  lemma {:induction false} SignedInIff(h: History, n: nat, s: Sid, u: string, d: string, m: string)
    requires Run(h) && n <= |h.es|
    ensures Identity(SessionOf(h.rs[n], s), u, d, m) <==> SignedIn(h, n, s, u, d, m)
  {
    if n > 0 {
      SignedInIff(h, n - 1, s, u, d, m);
      StepIdentity(h, n - 1, s, u, d, m);
      SignedInStep(h, n, s, u, d, m);
    }
  }

  // ---------------------------------------------------------------- who is in the table

  /** A login of u that finds u in the database. */
  ghost predicate KnownLogin(e: Event, u: string) {
    e.Login? && e.known && !Spaces(e.userID) && !Spaces(e.deviceID) && TrimSpace(e.userID) == u
  }

  ghost predicate Invalidates(e: Event, u: string) {
    e.Invalidate? && TrimSpace(e.userID) == u
  }

  ghost predicate PresentSince(es: seq<Event>, i: nat, n: nat, u: string)
    requires i < n <= |es|
  {
    KnownLogin(es[i], u) && forall j :: i < j < n ==> !Invalidates(es[j], u)
  }

  /** After such a login u was not invalidated. */
  ghost predicate Present(es: seq<Event>, n: nat, u: string)
    requires n <= |es|
  {
    exists i :: 0 <= i < n && PresentSince(es, i, n, u)
  }

  lemma PresentStep(es: seq<Event>, n: nat, u: string)
    requires 0 < n <= |es|
    ensures Present(es, n, u) <==>
      KnownLogin(es[n - 1], u) || (Present(es, n - 1, u) && !Invalidates(es[n - 1], u))
  {
    if KnownLogin(es[n - 1], u) {
      assert PresentSince(es, n - 1, n, u);
    } else if Present(es, n, u) {
      var i :| 0 <= i < n && PresentSince(es, i, n, u);
      assert PresentSince(es, i, n - 1, u);
    } else if Present(es, n - 1, u) {
      var i :| 0 <= i < n - 1 && PresentSince(es, i, n - 1, u);
      assert !PresentSince(es, i, n, u);
    }
  }

  lemma StepTable(r: Registry, e: Event, u: string)
    requires u != ""
    ensures u in Apply(r, e).states <==>
      KnownLogin(e, u) || (u in r.states && !Invalidates(e, u))
  {
    TrimBlank(e.userID);
    if e.Login? {
      TrimBlank(e.deviceID);
    }
  }

  /** A user is in the table exactly after a login that the database knew and that no invalidation of the
      user followed, so these logins, and those of users in the table, are the ones that register. */
  lemma {:induction false} PresentIff(h: History, n: nat, u: string)
    requires Run(h) && n <= |h.es| && u != ""
    ensures u in h.rs[n].states <==> Present(h.es, n, u)
  {
    if n > 0 {
      PresentIff(h, n - 1, u);
      assert h.rs[n] == Apply(h.rs[n - 1], h.es[n - 1]);
      StepTable(h.rs[n - 1], h.es[n - 1], u);
      PresentStep(h.es, n, u);
    }
  }

  lemma RegistersIff(h: History, n: nat, u: string, d: string)
    requires Run(h) && n < |h.es|
    ensures Registers(h.rs[n], h.es[n], u, d) <==>
      && h.es[n].Login? && !Spaces(h.es[n].userID) && !Spaces(h.es[n].deviceID)
      && u == TrimSpace(h.es[n].userID) && d == TrimSpace(h.es[n].deviceID)
      && (h.es[n].known || Present(h.es, n, u))
  {
    if h.es[n].Login? {
      TrimBlank(h.es[n].userID);
      TrimBlank(h.es[n].deviceID);
      if u != "" {
        PresentIff(h, n, u);
      }
    }
  }

  // ---------------------------------------------------------------- when nobody is left behind

  /** Every effective login of the first n events reaches the registry. */
  ghost predicate AllRegister(h: History, n: nat)
    requires |h.rs| == |h.es| + 1 && n <= |h.es|
  {
    forall k {:trigger h.es[k]} :: 0 <= k < n && Effective(h.es[k]) ==>
      Registers(h.rs[k], h.es[k], TrimSpace(h.es[k].userID), TrimSpace(h.es[k].deviceID))
  }

  /** No two sessions log in with the same user and device. */
  ghost predicate DevicesNotShared(h: History, n: nat)
    requires n <= |h.es|
  {
    forall i, j {:trigger h.es[i], h.es[j]} :: 0 <= i < n && 0 <= j < n && Effective(h.es[i]) && Effective(h.es[j])
      && TrimSpace(h.es[i].userID) == TrimSpace(h.es[j].userID)
      && TrimSpace(h.es[i].deviceID) == TrimSpace(h.es[j].deviceID)
      ==> h.es[i].s == h.es[j].s
  }

  /** Then every authenticated session is listed under its user and device. */
  lemma {:induction false} AuthenticatedIsListed(h: History, n: nat, s: Sid)
    requires Run(h) && n <= |h.es| && AllRegister(h, n) && DevicesNotShared(h, n)
    ensures var x := SessionOf(h.rs[n], s); x.user != "" ==> Entry(h.rs[n], x.user, x.device) == Some(s)
  {
    if n > 0 {
      var r, e := h.rs[n - 1], h.es[n - 1];
      AuthenticatedIsListed(h, n - 1, s);
      assert h.rs[n] == Apply(r, e);
      RegistrySound(h, n - 1, s);
      var x, y := SessionOf(r, s), SessionOf(h.rs[n], s);
      StepEntry(r, e, y.user, y.device);
      if e.Login? && e.s != s && x.user != "" && Registers(r, e, x.user, x.device) {
        var i := EntryOrigin(h, n - 1, x.user, x.device);
      } else if Detaches(r, e, x.user) {
        ListedIff(r, x.user, s);
      }
    }
  }

  /** If every login registers and devices are not shared, no session of an invalidated user stays
      authenticated as that user. */
  lemma InvalidateLeavesNobody(h: History, n: nat, u: string, s: Sid)
    requires Run(h) && n < |h.es| && h.es[n].Invalidate? && u == TrimSpace(h.es[n].userID) != ""
    requires AllRegister(h, n) && DevicesNotShared(h, n)
    ensures SessionOf(h.rs[n + 1], s).user != u
  {
    assert h.rs[n + 1] == Apply(h.rs[n], h.es[n]);
    AuthenticatedIsListed(h, n, s);
    RegistrySound(h, n, s);
    var x := SessionOf(h.rs[n], s);
    if x.user == u {
      ListedIff(h.rs[n], u, s);
      assert Entry(h.rs[n], u, x.device) == Some(s);
    }
  }

  /** Each session logs in as one user only. */
  ghost predicate OneUserPerSession(h: History, n: nat)
    requires n <= |h.es|
  {
    forall i, j {:trigger h.es[i], h.es[j]} ::
      0 <= i < n && 0 <= j < n && Effective(h.es[i]) && Effective(h.es[j]) && h.es[i].s == h.es[j].s
      ==> TrimSpace(h.es[i].userID) == TrimSpace(h.es[j].userID)
  }

  /** The login that made a session authenticated. */
  lemma {:induction false} LoginOf(h: History, n: nat, s: Sid) returns (i: nat)
    requires Run(h) && n <= |h.es| && SessionOf(h.rs[n], s).user != ""
    ensures i < n && Effective(h.es[i]) && h.es[i].s == s && TrimSpace(h.es[i].userID) == SessionOf(h.rs[n], s).user
  {
    var e := h.es[n - 1];
    assert h.rs[n] == Apply(h.rs[n - 1], e);
    RegistrySound(h, n - 1, s);
    if Effective(e) && e.s == s {
      i := n - 1;
    } else {
      i := LoginOf(h, n - 1, s);
    }
  }

  /** If each session serves one user, invalidating u touches no session authenticated as another. */
  lemma OthersUntouched(h: History, n: nat, u: string, s: Sid)
    requires Run(h) && n < |h.es| && h.es[n].Invalidate? && u == TrimSpace(h.es[n].userID) != ""
    requires OneUserPerSession(h, n) && s in h.rs[n].sessions
    requires SessionOf(h.rs[n], s).user != u && SessionOf(h.rs[n], s).user != ""
    ensures SessionOf(h.rs[n + 1], s) == SessionOf(h.rs[n], s)
  {
    InvalidateRevokesLatest(h, n, u, s);
    if LatestForSome(h, n, u, s) {
      var d :| Latest(h, n, u, d) == Some(s);
      EntryIsLatest(h, n, u, d);
      var i := EntryOrigin(h, n, u, d);
      var j := LoginOf(h, n, s);
    }
  }

  /** A shared device does leave a session behind: the second login replaces the first in the
      registry, and the first session outlives the invalidation. */
  lemma SharedDeviceIsLeftBehind(s: Sid, t: Sid) returns (h: History)
    requires s != t
    ensures Run(h) && h.es == [Login(s, "u", "d", "", true), Login(t, "u", "d", "", true), Invalidate("u")]
    ensures SessionOf(h.rs[3], s).user == "u" && SessionOf(h.rs[3], t).revoked
  {
    var es := [Login(s, "u", "d", "", true), Login(t, "u", "d", "", true), Invalidate("u")];
    TrimSpaceTrimmed("u");
    TrimSpaceTrimmed("d");
    TrimSpaceTrimmed("");
    var r1 := Apply(EMPTY, es[0]);
    assert r1 == Registry(map["u" := map["d" := s]], map[s := Session("u", "d", "", false, [0])]);
    var r2 := Apply(r1, es[1]);
    assert r2.states["u"] == map["d" := t];
    ListedIff(r2, "u", t);
    ListedIff(r2, "u", s);
    assert Entry(r2, "u", "d") == Some(t);
    h := History([EMPTY, r1, r2, Apply(r2, es[2])], es);
  }
}
