/** The double-checked creation of user states in Authenticate, interleaved freely with other
    Authenticate calls and with detachUserSessions. Each map operation and each section under a
    lock is one step; `lock` is userStatesInitMu. */
module SessionInit {
  import opened Options

  type Tid = nat
  type Ref = nat
  type Sid = nat

  /** Where an Authenticate call stands. A call that has obtained a user state carries it. */
  datatype Pc =
    | Look                       // first userStates.Get
    | WantLock                   // waits for the lock
    | LookAgain                  // second userStates.Get, holding the lock
    | FindUser                   // database lookup, holding the lock
    | Create                     // userStates.Set with a new state, holding the lock
    | Unlock(found: Option<Ref>)
    | Insert(target: Ref)        // state.devices[deviceID] = s
    | Done(result: Option<Ref>)

  datatype Call = Call(user: string, device: string, session: Sid, pc: Pc)

  datatype DetachPc = Find | Clear(target: Ref) | Remove | Detached

  datatype Detach = Detach(user: string, pc: DetachPc, sessions: set<Sid>)

  datatype World = World(
    table: map<string, Ref>,
    heap: map<Ref, map<string, Sid>>,
    next: Ref,
    lock: Option<Tid>,
    calls: map<Tid, Call>,
    detaches: map<Tid, Detach>)

  const START := World(map[], map[], 0, None, map[], map[])

  datatype Event =
    | Begin(t: Tid, user: string, device: string, session: Sid)  // past the section under the session lock
    | Run(t: Tid, known: bool)                                   // next step of call t; known: outcome of a lookup
    | BeginDetach(t: Tid, user: string)
    | RunDetach(t: Tid)

  ghost predicate Enabled(w: World, e: Event) {
    match e
    case Begin(t, _, _, _) => t !in w.calls
    case Run(t, _) => t in w.calls && !w.calls[t].pc.Done? && (w.calls[t].pc.WantLock? ==> w.lock.None?)
    case BeginDetach(t, _) => t !in w.detaches
    case RunDetach(t) => t in w.detaches && !w.detaches[t].pc.Detached?
  }

  /** Call t moves on to pc. */
  function Goto(w: World, t: Tid, pc: Pc): World
    requires t in w.calls
  {
    w.(calls := w.calls[t := w.calls[t].(pc := pc)])
  }

  function StepCall(w: World, t: Tid, known: bool): World
    requires t in w.calls
  {
    var c := w.calls[t];
    match c.pc
    case Look => Goto(w, t, if c.user in w.table then Insert(w.table[c.user]) else WantLock)
    case WantLock => Goto(w.(lock := Some(t)), t, LookAgain)
    case LookAgain => Goto(w, t, if c.user in w.table then Unlock(Some(w.table[c.user])) else FindUser)
    case FindUser => Goto(w, t, if known then Create else Unlock(None))
    case Create =>
      var w' := w.(table := w.table[c.user := w.next], heap := w.heap[w.next := map[]], next := w.next + 1);
      Goto(w', t, Unlock(Some(w.next)))
    case Unlock(found) => Goto(w.(lock := None), t, if found.Some? then Insert(found.value) else Done(None))
    case Insert(r) =>
      Goto(w.(heap := w.heap[r := (if r in w.heap then w.heap[r] else map[])[c.device := c.session]]), t, Done(Some(r)))
    case Done(_) => w
  }

  function StepDetach(w: World, t: Tid): World
    requires t in w.detaches
  {
    var d := w.detaches[t];
    match d.pc
    case Find =>
      w.(detaches := w.detaches[t := d.(pc := if d.user in w.table then Clear(w.table[d.user]) else Detached)])
    case Clear(r) =>
      w.(heap := w.heap[r := map[]],
         detaches := w.detaches[t := d.(pc := Remove, sessions := if r in w.heap then w.heap[r].Values else {})])
    case Remove => w.(table := w.table - {d.user}, detaches := w.detaches[t := d.(pc := Detached)])
    case Detached => w
  }

  function Apply(w: World, e: Event): World
    requires e.Run? ==> e.t in w.calls
    requires e.RunDetach? ==> e.t in w.detaches
  {
    match e
    case Begin(t, u, d, s) => w.(calls := w.calls[t := Call(u, d, s, Look)])
    case Run(t, known) => StepCall(w, t, known)
    case BeginDetach(t, u) => w.(detaches := w.detaches[t := Detach(u, Find, {})])
    case RunDetach(t) => StepDetach(w, t)
  }

  datatype History = History(ws: seq<World>, es: seq<Event>)

  ghost predicate Step(w: World, e: Event, w': World) {
    Enabled(w, e) && w' == Apply(w, e)
  }

  ghost predicate IsRun(h: History) {
    && |h.ws| == |h.es| + 1 && h.ws[0] == START
    && forall k {:trigger h.es[k]} :: 0 <= k < |h.es| ==> Step(h.ws[k], h.es[k], h.ws[k + 1])
  }

  // ---------------------------------------------------------------- invariants of every interleaving

  predicate InLock(pc: Pc) {
    pc.LookAgain? || pc.FindUser? || pc.Create? || pc.Unlock?
  }

  /** The user state a call has obtained. */
  function Obtained(pc: Pc): Option<Ref> {
    match pc
    case Unlock(found) => found
    case Insert(r) => Some(r)
    case Done(result) => result
    case _ => None
  }

  ghost predicate CallSound(w: World, t: Tid)
    requires t in w.calls
  {
    var c := w.calls[t];
    && (InLock(c.pc) <==> w.lock == Some(t))
    && ((c.pc.FindUser? || c.pc.Create?) ==> c.user !in w.table)
    && (Obtained(c.pc).Some? ==> Obtained(c.pc).value < w.next)
  }

  ghost predicate Sound(w: World) {
    && (w.lock.Some? ==> w.lock.value in w.calls && InLock(w.calls[w.lock.value].pc))
    && (forall t :: t in w.calls ==> CallSound(w, t))
    && (forall u :: u in w.table ==> w.table[u] < w.next)
  }

  lemma StepTable(w: World, e: Event, u: string)
    requires Sound(w) && Enabled(w, e)
    ensures var w' := Apply(w, e);
      && w.next <= w'.next
      && (u in w'.table ==> (u in w.table && w'.table[u] == w.table[u]) || w'.table[u] == w.next < w'.next)
  {
  }

  /** The call that moves. */
  lemma MoverSound(w: World, t: Tid, known: bool)
    requires Sound(w) && Enabled(w, Run(t, known))
    ensures CallSound(StepCall(w, t, known), t)
  {
    assert CallSound(w, t);
  }

  /** The calls that do not. */
  lemma OthersSound(w: World, e: Event, t: Tid)
    requires Sound(w) && Enabled(w, e) && t in w.calls && !(e.Run? && e.t == t)
    ensures t in Apply(w, e).calls && CallSound(Apply(w, e), t)
  {
    assert CallSound(w, t);
    if e.Run? {
      assert CallSound(w, e.t);
    }
  }

  lemma LockSound(w: World, e: Event)
    requires Sound(w) && Enabled(w, e)
    ensures var w' := Apply(w, e); w'.lock.Some? ==> w'.lock.value in w'.calls && InLock(w'.calls[w'.lock.value].pc)
  {
    if e.Run? {
      assert CallSound(w, e.t);
    }
  }

  lemma StepSound(w: World, e: Event)
    requires Sound(w) && Enabled(w, e)
    ensures Sound(Apply(w, e))
  {
    var w' := Apply(w, e);
    LockSound(w, e);
    forall u | u in w'.table ensures w'.table[u] < w'.next { StepTable(w, e, u); }
    forall t | t in w'.calls ensures CallSound(w', t) {
      if e.Run? && e.t == t {
        MoverSound(w, t, e.known);
      } else if t in w.calls {
        OthersSound(w, e, t);
      }
    }
  }

  lemma {:induction false} AlwaysSound(h: History, n: nat)
    requires IsRun(h) && n <= |h.es|
    ensures Sound(h.ws[n])
  {
    if n > 0 {
      AlwaysSound(h, n - 1);
      assert Step(h.ws[n - 1], h.es[n - 1], h.ws[n]);
      StepSound(h.ws[n - 1], h.es[n - 1]);
    }
  }

  /** With any detaches in between, a state is created only for a user that is not in the map, so no
      creation ever replaces a state. */
  lemma CreatedOnlyWhenAbsent(h: History, k: nat, u: string)
    requires IsRun(h) && k < |h.es|
    requires u in h.ws[k + 1].table && (u in h.ws[k].table ==> h.ws[k].table[u] != h.ws[k + 1].table[u])
    ensures u !in h.ws[k].table
    ensures h.es[k].Run? && h.ws[k].calls[h.es[k].t].pc.Create? && h.ws[k].calls[h.es[k].t].user == u
  {
    AlwaysSound(h, k);
    assert Step(h.ws[k], h.es[k], h.ws[k + 1]);
    if h.es[k].Run? {
      assert CallSound(h.ws[k], h.es[k].t);
    }
  }

  /** A call that does not move stays where it is. */
  lemma OthersKeep(w: World, e: Event, t: Tid)
    requires Enabled(w, e) && t in Apply(w, e).calls && !(e.Run? && e.t == t)
    ensures if t in w.calls then Apply(w, e).calls[t] == w.calls[t] else Apply(w, e).calls[t].pc.Look?
  {
  }

  // ---------------------------------------------------------------- without detaches

  ghost predicate NoDetach(h: History, n: nat)
    requires n <= |h.es|
  {
    forall k {:trigger h.es[k]} :: 0 <= k < n ==> !h.es[k].RunDetach?
  }

  /** Every obtained state is the one in the map, and a finished call's device is in it. */
  ghost predicate Shared(w: World) {
    forall t :: t in w.calls ==> SharedCall(w, t)
  }

  ghost predicate SharedCall(w: World, t: Tid)
    requires t in w.calls
  {
    var c := w.calls[t];
    Obtained(c.pc).Some? ==>
      && c.user in w.table && w.table[c.user] == Obtained(c.pc).value
      && (c.pc.Done? ==> w.table[c.user] in w.heap && c.device in w.heap[w.table[c.user]])
  }

  lemma MoverShared(w: World, t: Tid, known: bool)
    requires Sound(w) && Shared(w) && Enabled(w, Run(t, known))
    ensures SharedCall(StepCall(w, t, known), t)
  {
    assert CallSound(w, t) && SharedCall(w, t);
  }

  lemma OthersShared(w: World, e: Event, t: Tid)
    requires Sound(w) && Shared(w) && Enabled(w, e) && !e.RunDetach? && t in w.calls && !(e.Run? && e.t == t)
    ensures t in Apply(w, e).calls && SharedCall(Apply(w, e), t)
  {
    assert CallSound(w, t) && SharedCall(w, t);
    if e.Run? {
      assert CallSound(w, e.t) && SharedCall(w, e.t);
    }
  }

  lemma StepShared(w: World, e: Event)
    requires Sound(w) && Shared(w) && Enabled(w, e) && !e.RunDetach?
    ensures Shared(Apply(w, e))
  {
    var w' := Apply(w, e);
    forall t | t in w'.calls ensures SharedCall(w', t) {
      if e.Run? && e.t == t {
        MoverShared(w, t, e.known);
      } else if t in w.calls {
        OthersShared(w, e, t);
      }
    }
  }

  lemma {:induction false} AlwaysShared(h: History, n: nat)
    requires IsRun(h) && n <= |h.es| && NoDetach(h, n)
    ensures Shared(h.ws[n])
  {
    if n > 0 {
      AlwaysShared(h, n - 1);
      AlwaysSound(h, n - 1);
      assert Step(h.ws[n - 1], h.es[n - 1], h.ws[n]);
      StepShared(h.ws[n - 1], h.es[n - 1]);
    }
  }

  /** In every interleaving without detach, whatever the number of calls: all calls of a user obtain
      one state, and every call that obtained one and finished has its device registered in it. */
  lemma OneStatePerUser(h: History, n: nat, t: Tid, t': Tid)
    requires IsRun(h) && n <= |h.es| && NoDetach(h, n) && t in h.ws[n].calls && t' in h.ws[n].calls
    requires var c, c' := h.ws[n].calls[t], h.ws[n].calls[t'];
      c.user == c'.user && Obtained(c.pc).Some? && Obtained(c'.pc).Some?
    ensures Obtained(h.ws[n].calls[t].pc) == Obtained(h.ws[n].calls[t'].pc)
    ensures var w := h.ws[n]; var c := w.calls[t];
      c.pc.Done? ==> c.user in w.table && w.table[c.user] in w.heap && c.device in w.heap[w.table[c.user]]
  {
    AlwaysShared(h, n);
    assert SharedCall(h.ws[n], t) && SharedCall(h.ws[n], t');
  }

  /** Every lookup of a user in the database during the first n events succeeds. */
  ghost predicate AllKnown(h: History, n: nat)
    requires n <= |h.es|
  {
    forall k {:trigger h.es[k]} :: 0 <= k < n && h.es[k].Run? ==> h.es[k].known
  }

  predicate GaveUp(pc: Pc) {
    pc == Unlock(None) || pc == Done(None)
  }

  lemma StepGivesUp(w: World, t: Tid)
    requires t in w.calls && !GaveUp(w.calls[t].pc)
    ensures !GaveUp(StepCall(w, t, true).calls[t].pc)
  {
  }

  /** Then no call returns without having obtained a state. */
  lemma {:induction false} NobodyGivesUp(h: History, n: nat, t: Tid)
    requires IsRun(h) && n <= |h.es| && AllKnown(h, n) && t in h.ws[n].calls
    ensures !GaveUp(h.ws[n].calls[t].pc)
  {
    if n > 0 {
      var w, e := h.ws[n - 1], h.es[n - 1];
      assert Step(w, e, h.ws[n]);
      if e.Run? && e.t == t {
        NobodyGivesUp(h, n - 1, t);
        StepGivesUp(w, t);
      } else {
        OthersKeep(w, e, t);
        if t in w.calls {
          NobodyGivesUp(h, n - 1, t);
        }
      }
    }
  }

  /** Call t has put session s into state r under device d. */
  ghost predicate Inserted(w: World, t: Tid, r: Ref, d: string, s: Sid) {
    t in w.calls && w.calls[t].pc == Done(Some(r)) && w.calls[t].device == d && w.calls[t].session == s
  }

  lemma StepListed(w: World, e: Event, r: Ref, d: string)
    requires Enabled(w, e) && r in Apply(w, e).heap && d in Apply(w, e).heap[r]
    ensures var w' := Apply(w, e);
      || (r in w.heap && d in w.heap[r] && w.heap[r][d] == w'.heap[r][d])
      || (e.Run? && Inserted(w', e.t, r, d, w'.heap[r][d]))
  {
  }

  /** In every interleaving, whatever a state lists was put there by a call that has finished. */
  lemma {:induction false} EntryInserted(h: History, n: nat, r: Ref, d: string) returns (t: Tid)
    requires IsRun(h) && n <= |h.es| && r in h.ws[n].heap && d in h.ws[n].heap[r]
    ensures Inserted(h.ws[n], t, r, d, h.ws[n].heap[r][d])
  {
    var w, e := h.ws[n - 1], h.es[n - 1];
    assert Step(w, e, h.ws[n]);
    StepListed(w, e, r, d);
    if e.Run? && Inserted(h.ws[n], e.t, r, d, h.ws[n].heap[r][d]) {
      t := e.t;
    } else {
      t := EntryInserted(h, n - 1, r, d);
      OthersKeep(w, e, t);
    }
  }

  /** With successful lookups and no detach, every call that has returned finds its device registered
      in the one state of its user, for a session that authenticated that device as that user. */
  lemma EveryDeviceRegistered(h: History, n: nat, t: Tid) returns (t': Tid)
    requires IsRun(h) && n <= |h.es| && NoDetach(h, n) && AllKnown(h, n)
    requires t in h.ws[n].calls && h.ws[n].calls[t].pc.Done?
    ensures var w := h.ws[n]; var c := w.calls[t];
      && c.user in w.table && w.table[c.user] in w.heap && c.device in w.heap[w.table[c.user]]
      && Inserted(w, t', w.table[c.user], c.device, w.heap[w.table[c.user]][c.device])
      && (w.calls[t'].user == c.user)
  {
    var w := h.ws[n];
    NobodyGivesUp(h, n, t);
    AlwaysShared(h, n);
    assert SharedCall(w, t);
    t' := EntryInserted(h, n, w.table[w.calls[t].user], w.calls[t].device);
    assert SharedCall(w, t');
    if w.calls[t].user != w.calls[t'].user {
      AlwaysDistinct(h, n, w.calls[t].user, w.calls[t'].user);
    }
  }

  /** No two users ever have the same state. */
  lemma {:induction false} AlwaysDistinct(h: History, n: nat, u: string, v: string)
    requires IsRun(h) && n <= |h.es| && u in h.ws[n].table && v in h.ws[n].table && u != v
    ensures h.ws[n].table[u] != h.ws[n].table[v]
  {
    assert Step(h.ws[n - 1], h.es[n - 1], h.ws[n]);
    AlwaysSound(h, n - 1);
    if u in h.ws[n - 1].table && v in h.ws[n - 1].table {
      AlwaysDistinct(h, n - 1, u, v);
    }
  }

  // ---------------------------------------------------------------- with detaches

  /** Event k takes user u out of the map. */
  ghost predicate Removes(h: History, k: nat, u: string)
    requires |h.ws| == |h.es| + 1
  {
    && k < |h.es| && h.es[k].RunDetach? && h.es[k].t in h.ws[k].detaches
    && h.ws[k].detaches[h.es[k].t].pc.Remove? && h.ws[k].detaches[h.es[k].t].user == u
  }

  /** State r is u's state in the map. */
  predicate Current(w: World, u: string, r: Ref) {
    u in w.table && w.table[u] == r
  }

  /** One step keeps a current state current unless it removes the user, and never makes an old
      state current again. */
  lemma StepCurrent(w: World, e: Event, u: string, r: Ref)
    requires Sound(w) && Enabled(w, e) && r < w.next
    ensures Current(Apply(w, e), u, r) <==>
      Current(w, u, r) && !(e.RunDetach? && w.detaches[e.t].pc.Remove? && w.detaches[e.t].user == u)
  {
    if e.Run? {
      assert CallSound(w, e.t);
    }
  }

  /** A call that moves keeps the state it has, or obtains the current one. */
  lemma MoverObtains(w: World, t: Tid, known: bool)
    requires Sound(w) && Enabled(w, Run(t, known)) && Obtained(StepCall(w, t, known).calls[t].pc).Some?
    ensures var w' := StepCall(w, t, known); var r := Obtained(w'.calls[t].pc);
      && w'.calls[t].user == w.calls[t].user
      && (Obtained(w.calls[t].pc) == r || (Current(w', w.calls[t].user, r.value) && r.value < w'.next))
  {
    assert CallSound(w, t);
  }

  lemma {:induction false} NextGrows(h: History, m: nat, n: nat)
    requires IsRun(h) && m <= n <= |h.es|
    ensures h.ws[m].next <= h.ws[n].next
  {
    if m < n {
      NextGrows(h, m, n - 1);
      AlwaysSound(h, n - 1);
      assert Step(h.ws[n - 1], h.es[n - 1], h.ws[n]);
      StepTable(h.ws[n - 1], h.es[n - 1], "");
    }
  }

  lemma {:induction false} CurrentSince(h: History, m: nat, n: nat, u: string, r: Ref)
    requires IsRun(h) && m <= n <= |h.es| && Current(h.ws[m], u, r)
    ensures Current(h.ws[n], u, r) <==> forall k: nat :: m <= k < n ==> !Removes(h, k, u)
  {
    if m < n {
      CurrentSince(h, m, n - 1, u, r);
      AlwaysSound(h, m);
      AlwaysSound(h, n - 1);
      NextGrows(h, m, n - 1);
      assert Step(h.ws[n - 1], h.es[n - 1], h.ws[n]);
      StepCurrent(h.ws[n - 1], h.es[n - 1], u, r);
      assert Current(h.ws[n], u, r) <==> Current(h.ws[n - 1], u, r) && !Removes(h, n - 1, u);
    }
  }

  /** Call t has its user state from point m on. */
  ghost predicate ObtainedAt(h: History, m: nat, t: Tid, r: Ref) {
    && 0 < m < |h.ws| && t in h.ws[m].calls && Obtained(h.ws[m].calls[t].pc) == Some(r)
    && (t in h.ws[m - 1].calls ==> Obtained(h.ws[m - 1].calls[t].pc) != Some(r))
  }

  /** A call obtained its state at some point m, when it was the user's state in the map; it still is
      at n if and only if no detach has removed the user from the map in between. */
  lemma {:induction false} StillCurrentIff(h: History, n: nat, t: Tid) returns (m: nat)
    requires IsRun(h) && n <= |h.es| && t in h.ws[n].calls && Obtained(h.ws[n].calls[t].pc).Some?
    ensures m <= n && var c := h.ws[n].calls[t]; var r := Obtained(c.pc).value;
      && ObtainedAt(h, m, t, r) && Current(h.ws[m], c.user, r)
      && (Current(h.ws[n], c.user, r) <==> forall k: nat :: m <= k < n ==> !Removes(h, k, c.user))
  {
    var c := h.ws[n].calls[t];
    var r := Obtained(c.pc).value;
    AlwaysSound(h, n - 1);
    assert Step(h.ws[n - 1], h.es[n - 1], h.ws[n]);
    if h.es[n - 1].Run? && h.es[n - 1].t == t {
      MoverObtains(h.ws[n - 1], t, h.es[n - 1].known);
    } else {
      OthersKeep(h.ws[n - 1], h.es[n - 1], t);
    }
    if t in h.ws[n - 1].calls && Obtained(h.ws[n - 1].calls[t].pc) == Some(r) {
      m := StillCurrentIff(h, n - 1, t);
    } else {
      m := n;
    }
    CurrentSince(h, m, n, c.user, r);
  }
}
