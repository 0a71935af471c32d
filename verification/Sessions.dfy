/** Device sessions of server/core/session/session.go and their revocation channels. Each section
    under the session lock is one step. */
module Sessions {
  import opened Text

  // ---------------------------------------------------------------- sessions as values

  /** `closes[i]` counts how often the i-th channel of the session was closed; the last channel is
      the current one. */
  datatype Session = Session(user: string, device: string, name: string, revoked: bool, closes: seq<nat>)

  const NEW_SESSION := Session("", "", "", false, [0])

  /** The locked section of Authenticate, with its guard on empty ids. */
  function AfterAuthenticate(s: Session, userID: string, deviceID: string, deviceName: string): Session {
    var u, d, n := TrimSpace(userID), TrimSpace(deviceID), TrimSpace(deviceName);
    if u == "" || d == "" then s
    else Session(u, d, n, false, if s.revoked then s.closes + [0] else s.closes)
  }

  /** Revoke; a session without a channel has none to close. */
  function AfterRevoke(s: Session): Session {
    if s.revoked then s
    else
      var i := |s.closes| - 1;
      Session("", "", "", true, if s.closes == [] then [] else s.closes[i := s.closes[i] + 1])
  }

  predicate Authenticated(s: Session) {
    s.user != "" && s.device != ""
  }

  /** The revoked flag holds exactly when the current channel is closed, every earlier channel is
      closed, none was closed twice, and a revoked session is not authenticated. */
  ghost predicate Sound(s: Session) {
    && |s.closes| > 0
    && s.closes[|s.closes| - 1] == (if s.revoked then 1 else 0)
    && (forall i :: 0 <= i < |s.closes| - 1 ==> s.closes[i] == 1)
    && (s.revoked ==> !Authenticated(s) && s.user == "" && s.device == "")
  }

  datatype Op =
    | Authenticate(userID: string, deviceID: string, deviceName: string)
    | Revoke
    | Revoked  // hands out the current channel

  function Apply(s: Session, op: Op): Session {
    match op
    case Authenticate(u, d, n) => AfterAuthenticate(s, u, d, n)
    case Revoke => AfterRevoke(s)
    case Revoked => s
  }

  /** The session after the first n operations of any interleaving. */
  function At(ops: seq<Op>, n: nat): (s: Session)
    requires n <= |ops|
    ensures |s.closes| > 0
  {
    if n == 0 then NEW_SESSION else Apply(At(ops, n - 1), ops[n - 1])
  }

  /** In every interleaving the session stays sound. */
  lemma {:induction false} AlwaysSound(ops: seq<Op>, n: nat)
    requires n <= |ops|
    ensures Sound(At(ops, n))
  {
    if n > 0 {
      AlwaysSound(ops, n - 1);
    }
  }

  /** The channel that call i of Revoked hands out. */
  function HandedOut(ops: seq<Op>, i: nat): nat
    requires i < |ops|
  {
    |At(ops, i).closes| - 1
  }

  /** One operation on an open channel closes it exactly when it is a revocation. */
  lemma StepChannel(s: Session, op: Op, c: nat)
    requires Sound(s) && c < |s.closes|
    ensures c < |Apply(s, op).closes|
    ensures Apply(s, op).closes[c] == 0 <==> s.closes[c] == 0 && !op.Revoke?
  {
  }

  /** No operation from i + 1 up to n - 1 is a revocation. */
  ghost predicate NoRevoke(ops: seq<Op>, i: nat, n: nat)
    requires n <= |ops|
  {
    i + 1 < n ==> NoRevoke(ops, i, n - 1) && !ops[n - 1].Revoke?
  }

  /** Whether channel c exists after n operations and is open. */
  predicate OpenAt(ops: seq<Op>, n: nat, c: nat)
    requires n <= |ops|
  {
    c < |At(ops, n).closes| && At(ops, n).closes[c] == 0
  }

  lemma HandedOutNow(ops: seq<Op>, i: nat)
    requires i < |ops| && ops[i].Revoked?
    ensures HandedOut(ops, i) < |At(ops, i + 1).closes|
    ensures OpenAt(ops, i + 1, HandedOut(ops, i)) <==> !At(ops, i).revoked
  {
    AlwaysSound(ops, i);
    assert At(ops, i + 1) == At(ops, i);
  }

  lemma OpenStep(ops: seq<Op>, n: nat, c: nat)
    requires 0 < n <= |ops| && c < |At(ops, n - 1).closes|
    ensures c < |At(ops, n).closes|
    ensures OpenAt(ops, n, c) <==> OpenAt(ops, n - 1, c) && !ops[n - 1].Revoke?
  {
    AlwaysSound(ops, n - 1);
    StepChannel(At(ops, n - 1), ops[n - 1], c);
  }

  lemma {:induction false} ChannelStays(ops: seq<Op>, m: nat, n: nat, c: nat)
    requires m <= n <= |ops| && c < |At(ops, m).closes|
    ensures c < |At(ops, n).closes|
  {
    if m < n {
      ChannelStays(ops, m, n - 1, c);
      OpenStep(ops, n, c);
    }
  }

  lemma OpenStepFrom(ops: seq<Op>, m: nat, k: nat, c: nat)
    requires m <= k < |ops| && c < |At(ops, m).closes|
    ensures OpenAt(ops, k + 1, c) <==> OpenAt(ops, k, c) && !ops[k].Revoke?
  {
    ChannelStays(ops, m, k, c);
    OpenStep(ops, k + 1, c);
  }

  lemma OpenSteps(ops: seq<Op>, i: nat, n: nat, c: nat)
    requires i < n <= |ops| && c < |At(ops, i + 1).closes|
    ensures forall k :: i < k < n ==> (OpenAt(ops, k + 1, c) <==> OpenAt(ops, k, c) && !ops[k].Revoke?)
  {
    forall k | i < k < n ensures OpenAt(ops, k + 1, c) <==> OpenAt(ops, k, c) && !ops[k].Revoke? {
      OpenStepFrom(ops, i + 1, k, c);
    }
  }

  /** A flag that only a revocation resets stays set exactly until the first one. */
  lemma {:induction false} StaysSet(flag: nat -> bool, ops: seq<Op>, i: nat, n: nat)
    requires i < n <= |ops|
    requires forall k :: i < k < n ==> (flag(k + 1) <==> flag(k) && !ops[k].Revoke?)
    ensures flag(n) <==> flag(i + 1) && NoRevoke(ops, i, n)
  {
    if i + 1 < n {
      StaysSet(flag, ops, i, n - 1);
    }
  }

  lemma OpenSince(ops: seq<Op>, i: nat, n: nat, c: nat)
    requires i < n <= |ops| && c < |At(ops, i + 1).closes|
    ensures OpenAt(ops, n, c) <==> OpenAt(ops, i + 1, c) && NoRevoke(ops, i, n)
  {
    OpenSteps(ops, i, n, c);
    StaysSet((k: nat) => k <= |ops| && OpenAt(ops, k, c), ops, i, n);
  }

  /** A channel handed out at i is open at n exactly when the session was not revoked then and no
      operation since has revoked it: a waiter is woken by the first revocation and never lost. */
  lemma HandedOutOpenIff(ops: seq<Op>, i: nat, n: nat)
    requires i < n <= |ops| && ops[i].Revoked?
    ensures HandedOut(ops, i) < |At(ops, n).closes|
    ensures OpenAt(ops, n, HandedOut(ops, i)) <==> !At(ops, i).revoked && NoRevoke(ops, i, n)
  {
    HandedOutNow(ops, i);
    ChannelStays(ops, i + 1, n, HandedOut(ops, i));
    OpenSince(ops, i, n, HandedOut(ops, i));
  }

  // ---------------------------------------------------------------- who is signed in

  /** A login that is not turned away for a blank user or device. */
  ghost predicate SignsIn(op: Op, u: string, d: string, m: string) {
    && op.Authenticate? && !Spaces(op.userID) && !Spaces(op.deviceID)
    && u == TrimSpace(op.userID) && d == TrimSpace(op.deviceID) && m == TrimSpace(op.deviceName)
  }

  ghost predicate SignedInSince(ops: seq<Op>, i: nat, n: nat, u: string, d: string, m: string)
    requires i < n <= |ops|
  {
    && SignsIn(ops[i], u, d, m)
    && forall j :: i < j < n ==>
      !ops[j].Revoke? && (ops[j].Authenticate? ==> Spaces(ops[j].userID) || Spaces(ops[j].deviceID))
  }

  ghost predicate SignedIn(ops: seq<Op>, n: nat, u: string, d: string, m: string)
    requires n <= |ops|
  {
    exists i :: 0 <= i < n && SignedInSince(ops, i, n, u, d, m)
  }

  /** One operation, on the identity of a session. */
  lemma StepIdentity(s: Session, op: Op, u: string, d: string, m: string)
    requires Sound(s)
    ensures var s' := Apply(s, op);
      (Authenticated(s') && s'.user == u && s'.device == d && s'.name == m) <==>
        || SignsIn(op, u, d, m)
        || (Authenticated(s) && s.user == u && s.device == d && s.name == m && !op.Revoke?
            && (op.Authenticate? ==> Spaces(op.userID) || Spaces(op.deviceID)))
  {
    if op.Authenticate? {
      TrimBlank(op.userID);
      TrimBlank(op.deviceID);
    }
  }

  lemma SignedInStep(ops: seq<Op>, n: nat, u: string, d: string, m: string)
    requires 0 < n <= |ops|
    ensures SignedIn(ops, n, u, d, m) <==>
      || SignsIn(ops[n - 1], u, d, m)
      || (SignedIn(ops, n - 1, u, d, m) && !ops[n - 1].Revoke?
          && (ops[n - 1].Authenticate? ==> Spaces(ops[n - 1].userID) || Spaces(ops[n - 1].deviceID)))
  {
    if SignsIn(ops[n - 1], u, d, m) {
      assert SignedInSince(ops, n - 1, n, u, d, m);
    } else if SignedIn(ops, n, u, d, m) {
      var i :| 0 <= i < n && SignedInSince(ops, i, n, u, d, m);
      assert SignedInSince(ops, i, n - 1, u, d, m);
    } else if SignedIn(ops, n - 1, u, d, m) {
      var i :| 0 <= i < n - 1 && SignedInSince(ops, i, n - 1, u, d, m);
      assert !SignedInSince(ops, i, n, u, d, m);
    }
  }

  /** In every interleaving a session is authenticated as (u, d), with device name m, if and only if its
      last login with both ids given carried them, spaces trimmed, and nothing has revoked it since. A
      session that is not authenticated has no user, no device and no name. */
  lemma {:induction false} SignedInIff(ops: seq<Op>, n: nat, u: string, d: string, m: string)
    requires n <= |ops|
    ensures var s := At(ops, n);
      (Authenticated(s) && s.user == u && s.device == d && s.name == m) <==> SignedIn(ops, n, u, d, m)
    ensures !Authenticated(At(ops, n)) ==> At(ops, n).user == "" && At(ops, n).device == "" && At(ops, n).name == ""
  {
    if n > 0 {
      SignedInIff(ops, n - 1, u, d, m);
      AlwaysSound(ops, n - 1);
      StepIdentity(At(ops, n - 1), ops[n - 1], u, d, m);
      SignedInStep(ops, n, u, d, m);
    }
  }

  // ---------------------------------------------------------------- sessions as objects

  class Channel {
    var closed: bool

    constructor ()
      ensures !closed
    {
      closed := false;
    }

    /** Closing a closed channel panics. */
    method Close()
      requires !closed
      modifies this
      ensures closed
    {
      closed := true;
    }
  }

  /** Close counts of n channels of which all but the last are closed once. */
  function Counts(n: nat, lastClosed: bool): (counts: seq<nat>)
    requires n > 0
    ensures |counts| == n && counts[n - 1] == (if lastClosed then 1 else 0)
    ensures forall i :: 0 <= i < n - 1 ==> counts[i] == 1
  {
    seq(n - 1, _ => 1) + [if lastClosed then 1 else 0]
  }

  class DeviceSession {
    var userID: string
    var deviceID: string
    var deviceName: string
    var revoked: bool
    var revokedCh: Channel
    ghost var made: seq<Channel>  // every channel of this session, the current one last

    /** The channels are open or closed as the value State() says. */
    ghost predicate Valid()
      reads this, made
    {
      && made != [] && revokedCh == made[|made| - 1]
      && (forall i, j :: 0 <= i < j < |made| ==> made[i] != made[j])
      && (forall i :: 0 <= i < |made| - 1 ==> made[i].closed)
      && (revokedCh.closed <==> revoked)
      && (revoked ==> userID == "" && deviceID == "")
    }

    ghost function State(): Session
      requires made != []
      reads this
    {
      Session(userID, deviceID, deviceName, revoked, Counts(|made|, revoked))
    }

    constructor ()
      ensures Valid() && State() == NEW_SESSION && forall c :: c in made ==> fresh(c)
    {
      userID, deviceID, deviceName, revoked := "", "", "", false;
      var ch := new Channel();
      revokedCh, made := ch, [ch];
    }

    method Authenticate(user: string, device: string, name: string)
      requires Valid()
      modifies this
      ensures Valid() && State() == AfterAuthenticate(old(State()), user, device, name)
      ensures made == old(made) || (|made| == |old(made)| + 1 && old(made) <= made && fresh(made[|made| - 1]))
    {
      var u, d, n := TrimSpace(user), TrimSpace(device), TrimSpace(name);
      if u == "" || d == "" {
        return;
      }
      if revoked {
        Renew();
      }
      userID, deviceID, deviceName := u, d, n;
    }

    /** A revoked session gets a new, open channel when it is authenticated again. */
    method Renew()
      requires Valid() && revoked
      modifies this`revoked, this`revokedCh, this`made
      ensures Valid() && State() == old(State()).(revoked := false, closes := old(State()).closes + [0])
      ensures fresh(revokedCh) && made == old(made) + [revokedCh]
    {
      revoked := false;
      revokedCh := new Channel();
      made := made + [revokedCh];
    }

    /** Never closes a closed channel. */
    method Revoke()
      requires Valid()
      modifies this, revokedCh
      ensures Valid() && State() == AfterRevoke(old(State())) && made == old(made)
      ensures revoked
    {
      if revoked {
        return;
      }
      revoked := true;
      userID, deviceID, deviceName := "", "", "";
      revokedCh.Close();
    }

    method Revoked() returns (ch: Channel)
      requires Valid()
      ensures ch == revokedCh && (ch.closed <==> revoked)
    {
      ch := revokedCh;
    }

    method IsAuthenticated() returns (yes: bool)
      requires made != []
      ensures yes <==> Authenticated(State())
    {
      yes := userID != "" && deviceID != "";
    }
  }
}
