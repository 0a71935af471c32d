/** Sessions that get lost while a user is being detached: authenticated, but listed in no state that
    an invalidation would find, and taken by no detach. The exact condition, and runs that meet it. */
module SessionLoss {
  import opened Options
  import opened SessionInit

  // ---------------------------------------------------------------- one slot of one state

  /** Event k is call t's insertion into state r. */
  ghost predicate Inserts(h: History, k: nat, t: Tid, r: Ref)
    requires |h.ws| == |h.es| + 1
  {
    && k < |h.es| && h.es[k].Run? && h.es[k].t == t
    && t in h.ws[k].calls && h.ws[k].calls[t].pc == Insert(r)
  }

  /** Event k puts some session into state r under device d. */
  ghost predicate InsertsOn(h: History, k: nat, r: Ref, d: string)
    requires |h.ws| == |h.es| + 1
  {
    k < |h.es| && h.es[k].Run? && Inserts(h, k, h.es[k].t, r) && h.ws[k].calls[h.es[k].t].device == d
  }

  /** Event k is the step of a detach that empties state r and takes its sessions. */
  ghost predicate Clears(h: History, k: nat, r: Ref)
    requires |h.ws| == |h.es| + 1
  {
    && k < |h.es| && h.es[k].RunDetach? && h.es[k].t in h.ws[k].detaches
    && h.ws[k].detaches[h.es[k].t].pc == Clear(r)
  }

  function Slot(w: World, r: Ref, d: string): Option<Sid> {
    if r in w.heap && d in w.heap[r] then Some(w.heap[r][d]) else None
  }

  lemma StepSlot(w: World, e: Event, r: Ref, d: string)
    requires Enabled(w, e) && r < w.next
    ensures Slot(Apply(w, e), r, d) ==
            if e.Run? && w.calls[e.t].pc == Insert(r) && w.calls[e.t].device == d then Some(w.calls[e.t].session)
            else if e.RunDetach? && w.detaches[e.t].pc == Clear(r) then None
            else Slot(w, r, d)
  {
  }

  /** Nothing touches the slot (r, d) between events k and n. */
  ghost predicate Undisturbed(h: History, k: nat, n: nat, r: Ref, d: string)
    requires |h.ws| == |h.es| + 1
  {
    forall j: nat :: k < j < n ==> !Clears(h, j, r) && !InsertsOn(h, j, r, d)
  }

  // ---------------------------------------------------------------- what detaches have taken

  /** Detach t has taken session s. */
  ghost predicate Took(w: World, t: Tid, s: Sid) {
    && t in w.detaches && (w.detaches[t].pc.Remove? || w.detaches[t].pc.Detached?)
    && s in w.detaches[t].sessions
  }

  /** A detach that has not emptied its state has taken nothing. */
  lemma {:induction false} NothingTakenYet(h: History, n: nat, t: Tid)
    requires IsRun(h) && n <= |h.es| && t in h.ws[n].detaches
    requires h.ws[n].detaches[t].pc.Find? || h.ws[n].detaches[t].pc.Clear?
    ensures h.ws[n].detaches[t].sessions == {}
  {
    assert Step(h.ws[n - 1], h.es[n - 1], h.ws[n]);
    if t in h.ws[n - 1].detaches {
      NothingTakenYet(h, n - 1, t);
    }
  }

  lemma StepTook(w: World, e: Event, t: Tid, s: Sid)
    requires Enabled(w, e) && (t in w.detaches && w.detaches[t].pc.Find? ==> w.detaches[t].sessions == {})
    ensures Took(Apply(w, e), t, s) <==>
      || Took(w, t, s)
      || (e.RunDetach? && e.t == t && w.detaches[t].pc.Clear?
          && exists d :: Slot(w, w.detaches[t].pc.target, d) == Some(s))
  {
    if e.RunDetach? && e.t == t && w.detaches[t].pc.Clear? {
      var r := w.detaches[t].pc.target;
      if r in w.heap && s in w.heap[r].Values {
        var d :| d in w.heap[r] && w.heap[r][d] == s;
        assert Slot(w, r, d) == Some(s);
      }
    }
  }

  lemma {:induction false} TookStays(h: History, m: nat, n: nat, t: Tid, s: Sid)
    requires IsRun(h) && m <= n <= |h.es| && Took(h.ws[m], t, s)
    ensures Took(h.ws[n], t, s)
  {
    if m < n {
      TookStays(h, m, n - 1, t, s);
      assert Step(h.ws[n - 1], h.es[n - 1], h.ws[n]);
      StepTook(h.ws[n - 1], h.es[n - 1], t, s);
    }
  }

  /** A taken session was taken by emptying a state that listed it. */
  lemma {:induction false} TookOrigin(h: History, n: nat, t: Tid, s: Sid) returns (j: nat, r: Ref, d: string)
    requires IsRun(h) && n <= |h.es| && Took(h.ws[n], t, s)
    ensures j < n && Clears(h, j, r) && Slot(h.ws[j], r, d) == Some(s)
  {
    var w, e := h.ws[n - 1], h.es[n - 1];
    assert Step(w, e, h.ws[n]);
    if t in w.detaches && w.detaches[t].pc.Find? {
      NothingTakenYet(h, n - 1, t);
    }
    StepTook(w, e, t, s);
    if Took(w, t, s) {
      j, r, d := TookOrigin(h, n - 1, t, s);
    } else {
      j, r := n - 1, w.detaches[t].pc.target;
      d :| Slot(w, r, d) == Some(s);
    }
  }

  // ---------------------------------------------------------------- the fate of a session

  ghost predicate Listed(w: World, u: string, s: Sid) {
    u in w.table && exists d :: Slot(w, w.table[u], d) == Some(s)
  }

  ghost predicate Taken(w: World, s: Sid) {
    exists t :: Took(w, t, s)
  }

  /** An invalidation of u will not find s, and no detach has it. */
  ghost predicate Lost(w: World, u: string, s: Sid) {
    !Listed(w, u, s) && !Taken(w, s)
  }

  /** Event k, before point n, is call t's insertion of session s into state r under device d. A session
      that authenticates several times has several of these. */
  ghost predicate Insertion(h: History, k: nat, n: nat, t: Tid, r: Ref, d: string, s: Sid)
    requires |h.ws| == |h.es| + 1
  {
    k < n <= |h.es| && Inserts(h, k, t, r) && h.ws[k].calls[t].device == d && h.ws[k].calls[t].session == s
  }

  /** An insertion of s into the slot that nothing has touched since. */
  ghost predicate Stands(h: History, k: nat, n: nat, t: Tid, r: Ref, d: string, s: Sid)
    requires |h.ws| == |h.es| + 1
  {
    Insertion(h, k, n, t, r, d, s) && Undisturbed(h, k, n, r, d)
  }

  lemma Below(h: History, k: nat, n: nat, t: Tid, r: Ref)
    requires IsRun(h) && Inserts(h, k, t, r) && k <= n <= |h.es|
    ensures r < h.ws[n].next
  {
    AlwaysSound(h, k);
    assert CallSound(h.ws[k], t);
    NextGrows(h, k, n);
  }

  /** A session stays in its slot as long as nothing touches the slot. */
  lemma {:induction false} StandsIsThere(h: History, k: nat, n: nat, t: Tid, r: Ref, d: string, s: Sid)
    requires IsRun(h) && Stands(h, k, n, t, r, d, s)
    ensures Slot(h.ws[n], r, d) == Some(s)
  {
    var w, e := h.ws[n - 1], h.es[n - 1];
    assert Step(w, e, h.ws[n]);
    Below(h, k, n - 1, t, r);
    StepSlot(w, e, r, d);
    if k < n - 1 {
      StandsIsThere(h, k, n - 1, t, r, d, s);
      assert !Clears(h, n - 1, r) && !InsertsOn(h, n - 1, r, d);
    }
  }

  /** And whatever is in a slot was inserted there, and nothing has touched the slot since. */
  lemma {:induction false} ThereStands(h: History, n: nat, r: Ref, d: string, s: Sid) returns (k: nat, t: Tid)
    requires IsRun(h) && n <= |h.es| && Slot(h.ws[n], r, d) == Some(s)
    ensures Stands(h, k, n, t, r, d, s)
  {
    var w, e := h.ws[n - 1], h.es[n - 1];
    assert Step(w, e, h.ws[n]);
    SlotOrigin(w, e, r, d);
    if e.Run? && w.calls[e.t].pc == Insert(r) && w.calls[e.t].device == d {
      k, t := n - 1, e.t;
    } else {
      k, t := ThereStands(h, n - 1, r, d, s);
      assert !Clears(h, n - 1, r) && !InsertsOn(h, n - 1, r, d);
    }
  }

  lemma SlotOrigin(w: World, e: Event, r: Ref, d: string)
    requires Enabled(w, e) && Slot(Apply(w, e), r, d).Some?
    ensures if e.Run? && w.calls[e.t].pc == Insert(r) && w.calls[e.t].device == d
            then Slot(Apply(w, e), r, d) == Some(w.calls[e.t].session)
            else Slot(w, r, d) == Slot(Apply(w, e), r, d) && !(e.RunDetach? && w.detaches[e.t].pc == Clear(r))
  {
  }

  /** A detach emptied the state while the session was still in it. */
  ghost predicate ClearedFirst(h: History, k: nat, n: nat, r: Ref, d: string)
    requires |h.ws| == |h.es| + 1
  {
    exists j: nat :: k < j < n && Clears(h, j, r) && Undisturbed(h, k, j, r, d)
  }

  lemma TakenFrom(h: History, n: nat, s: Sid) returns (k: nat, t: Tid, r: Ref, d: string)
    requires IsRun(h) && n <= |h.es| && Taken(h.ws[n], s)
    ensures Insertion(h, k, n, t, r, d, s) && ClearedFirst(h, k, n, r, d)
  {
    var t' :| Took(h.ws[n], t', s);
    var j;
    j, r, d := TookOrigin(h, n, t', s);
    k, t := ThereStands(h, j, r, d, s);
  }

  lemma ClearedIsTaken(h: History, k: nat, n: nat, t: Tid, r: Ref, d: string, s: Sid)
    requires IsRun(h) && Insertion(h, k, n, t, r, d, s) && ClearedFirst(h, k, n, r, d)
    ensures Taken(h.ws[n], s)
  {
    var j: nat :| k < j < n && Clears(h, j, r) && Undisturbed(h, k, j, r, d);
    StandsIsThere(h, k, j, t, r, d, s);
    ClearTakes(h, j, n, r, d, s);
  }

  lemma ClearTakes(h: History, j: nat, n: nat, r: Ref, d: string, s: Sid)
    requires IsRun(h) && j < n <= |h.es| && Clears(h, j, r) && Slot(h.ws[j], r, d) == Some(s)
    ensures Taken(h.ws[n], s)
  {
    assert Step(h.ws[j], h.es[j], h.ws[j + 1]);
    StepTook(h.ws[j], h.es[j], h.es[j].t, s);
    TookStays(h, j + 1, n, h.es[j].t, s);
  }

  ghost predicate RemovedSince(h: History, m: nat, n: nat, u: string)
    requires |h.ws| == |h.es| + 1
  {
    exists j: nat :: m <= j < n && Removes(h, j, u)
  }

  ghost predicate Overwritten(h: History, k: nat, n: nat, r: Ref, d: string)
    requires |h.ws| == |h.es| + 1
  {
    exists j: nat :: k < j < n && InsertsOn(h, j, r, d)
  }

  ghost predicate ClearedSince(h: History, k: nat, n: nat, r: Ref)
    requires |h.ws| == |h.es| + 1
  {
    exists j: nat :: k < j < n && Clears(h, j, r)
  }

  /** The first event that empties the state takes the session, unless it was overwritten before. */
  lemma {:induction false} FirstClear(h: History, k: nat, n: nat, r: Ref, d: string)
    requires IsRun(h) && k < n <= |h.es| && ClearedSince(h, k, n, r) && !Overwritten(h, k, n, r, d)
    ensures ClearedFirst(h, k, n, r, d)
  {
    if ClearedSince(h, k, n - 1, r) {
      FirstClear(h, k, n - 1, r, d);
      var j: nat :| k < j < n - 1 && Clears(h, j, r) && Undisturbed(h, k, j, r, d);
    } else {
      assert Clears(h, n - 1, r) && Undisturbed(h, k, n - 1, r, d);
    }
  }

  /** Nothing has touched the slot exactly when it was neither emptied first nor written over. */
  lemma UndisturbedIff(h: History, k: nat, n: nat, r: Ref, d: string)
    requires IsRun(h) && k < n <= |h.es|
    ensures Undisturbed(h, k, n, r, d) <==> !ClearedFirst(h, k, n, r, d) && !Overwritten(h, k, n, r, d)
  {
    if ClearedSince(h, k, n, r) && !Overwritten(h, k, n, r, d) {
      FirstClear(h, k, n, r, d);
    }
  }

  // ---------------------------------------------------------------- whose state it is

  /** A state is only ever one user's. */
  lemma {:induction false} OneOwner(h: History, a: nat, b: nat, u: string, v: string, r: Ref)
    requires IsRun(h) && a <= b <= |h.es| && Current(h.ws[a], u, r) && Current(h.ws[b], v, r)
    ensures u == v
  {
    if a == b {
      if u != v {
        AlwaysDistinct(h, a, u, v);
      }
    } else {
      AlwaysSound(h, a);
      AlwaysSound(h, b - 1);
      NextGrows(h, a, b - 1);
      assert Step(h.ws[b - 1], h.es[b - 1], h.ws[b]);
      StepCurrent(h.ws[b - 1], h.es[b - 1], v, r);
      OneOwner(h, a, b - 1, u, v, r);
    }
  }

  /** A detach removed the user from the map after call t obtained state r. */
  ghost predicate Dropped(h: History, k: nat, n: nat, t: Tid, r: Ref, u: string)
    requires |h.ws| == |h.es| + 1
  {
    exists m: nat :: m <= k && ObtainedAt(h, m, t, r) && RemovedSince(h, m, n, u)
  }

  lemma {:induction false} ObtainedOnce(h: History, m: nat, n: nat, t: Tid, r: Ref)
    requires IsRun(h) && ObtainedAt(h, m, t, r) && m <= n <= |h.es|
    ensures t in h.ws[n].calls && Obtained(h.ws[n].calls[t].pc) == Some(r)
  {
    if m < n {
      ObtainedOnce(h, m, n - 1, t, r);
      var w, e := h.ws[n - 1], h.es[n - 1];
      assert Step(w, e, h.ws[n]);
      if e.Run? && e.t == t {
        MoverKeepsState(w, t, e.known);
      } else {
        OthersKeep(w, e, t);
      }
    }
  }

  lemma MoverKeepsState(w: World, t: Tid, known: bool)
    requires Enabled(w, Run(t, known)) && Obtained(w.calls[t].pc).Some?
    ensures Obtained(StepCall(w, t, known).calls[t].pc) == Obtained(w.calls[t].pc)
  {
  }

  /** The state that call t inserted into is u's current one exactly when t acts for u and no detach has
      removed u since t obtained it. */
  lemma CurrentIff(h: History, k: nat, n: nat, t: Tid, r: Ref, u: string)
    requires IsRun(h) && k < n <= |h.es| && Inserts(h, k, t, r)
    ensures Current(h.ws[n], u, r) <==> h.ws[k].calls[t].user == u && !Dropped(h, k, n, t, r, u)
  {
    var c := h.ws[k].calls[t];
    var m := StillCurrentIff(h, k, t);
    CurrentSince(h, m, n, c.user, r);
    if Current(h.ws[n], u, r) {
      OneOwner(h, m, n, c.user, u, r);
    }
    forall m': nat | m' <= k && ObtainedAt(h, m', t, r) ensures m' == m {
      if m' < m {
        ObtainedOnce(h, m', m - 1, t, r);
      } else if m < m' {
        ObtainedOnce(h, m, m' - 1, t, r);
      }
    }
  }

  // ---------------------------------------------------------------- the exact condition

  /** This insertion of the session counts for nothing at n, as far as user u is concerned. */
  ghost predicate InVain(h: History, k: nat, n: nat, t: Tid, r: Ref, d: string, u: string)
    requires |h.ws| == |h.es| + 1 && Inserts(h, k, t, r)
  {
    && !ClearedFirst(h, k, n, r, d)
    && (h.ws[k].calls[t].user != u || Dropped(h, k, n, t, r, u) || Overwritten(h, k, n, r, d))
  }

  lemma InVainIff(h: History, k: nat, n: nat, t: Tid, r: Ref, d: string, s: Sid, u: string)
    requires IsRun(h) && Insertion(h, k, n, t, r, d, s)
    ensures InVain(h, k, n, t, r, d, u) <==>
      !ClearedFirst(h, k, n, r, d) && !(Current(h.ws[n], u, r) && Undisturbed(h, k, n, r, d))
  {
    CurrentIff(h, k, n, t, r, u);
    UndisturbedIff(h, k, n, r, d);
  }

  /** The fate of a session, however often it authenticates. It is lost to u if and only if each of its
      insertions was in vain: no detach emptied the state while the session was in it, and either the
      call acted for another user, or a detach removed the user from the map after the call obtained the
      state, or a later insertion took its place. */
  lemma LostIff(h: History, n: nat, u: string, s: Sid)
    requires IsRun(h) && n <= |h.es|
    ensures Lost(h.ws[n], u, s) <==>
      forall k, t, r, d :: Insertion(h, k, n, t, r, d, s) ==> InVain(h, k, n, t, r, d, u)
  {
    forall k, t, r, d | Insertion(h, k, n, t, r, d, s) && Lost(h.ws[n], u, s)
      ensures InVain(h, k, n, t, r, d, u)
    {
      NotLostThen(h, k, n, t, r, d, s, u);
    }
    if Taken(h.ws[n], s) {
      var k, t, r, d := TakenFrom(h, n, s);
      assert !InVain(h, k, n, t, r, d, u);
    } else if Listed(h.ws[n], u, s) {
      var d :| Slot(h.ws[n], h.ws[n].table[u], d) == Some(s);
      var k, t := ThereStands(h, n, h.ws[n].table[u], d, s);
      InVainIff(h, k, n, t, h.ws[n].table[u], d, s, u);
    }
  }

  lemma NotLostThen(h: History, k: nat, n: nat, t: Tid, r: Ref, d: string, s: Sid, u: string)
    requires IsRun(h) && Insertion(h, k, n, t, r, d, s)
    ensures !InVain(h, k, n, t, r, d, u) ==> !Lost(h.ws[n], u, s)
  {
    InVainIff(h, k, n, t, r, d, s, u);
    if ClearedFirst(h, k, n, r, d) {
      ClearedIsTaken(h, k, n, t, r, d, s);
    } else if Current(h.ws[n], u, r) && Undisturbed(h, k, n, r, d) {
      StandsIsThere(h, k, n, t, r, d, s);
    }
  }

  /** Event k is the only insertion of the session so far. */
  ghost predicate OnlyInsertion(h: History, k: nat, n: nat, s: Sid)
    requires |h.ws| == |h.es| + 1
  {
    forall k', t, r, d :: Insertion(h, k', n, t, r, d, s) ==> k' == k
  }

  /** A session inserted once, for u, and not overwritten, is lost exactly when some detach removed u
      since the state was obtained and none emptied the state since the insertion. */
  lemma LostUnderDetachIff(h: History, k: nat, n: nat, t: Tid, r: Ref, d: string, s: Sid, u: string)
    requires IsRun(h) && Insertion(h, k, n, t, r, d, s) && OnlyInsertion(h, k, n, s)
    requires h.ws[k].calls[t].user == u && !Overwritten(h, k, n, r, d)
    ensures Lost(h.ws[n], u, s) <==> Dropped(h, k, n, t, r, u) && !ClearedSince(h, k, n, r)
  {
    LostIff(h, n, u, s);
    UndisturbedIff(h, k, n, r, d);
    assert InVain(h, k, n, t, r, d, u) <==> Dropped(h, k, n, t, r, u) && !ClearedSince(h, k, n, r);
  }

  // ---------------------------------------------------------------- three ways to get lost

  lemma Extend(h: History, e: Event) returns (g: History)
    requires IsRun(h) && Enabled(h.ws[|h.es|], e)
    ensures IsRun(g) && g.es == h.es + [e] && g.ws == h.ws + [Apply(h.ws[|h.es|], e)]
  {
    g := History(h.ws + [Apply(h.ws[|h.es|], e)], h.es + [e]);
  }

  lemma Creating() returns (h: History)
    ensures IsRun(h) && |h.es| == 5
    ensures h.ws[5] == World(map[], map[], 0, Some(1), map[1 := Call("u", "d", 7, Create)], map[])
  {
    h := Extend(History([START], []), Begin(1, "u", "d", 7));
    h := Extend(h, Run(1, true));
    h := Extend(h, Run(1, true));
    h := Extend(h, Run(1, true));
    h := Extend(h, Run(1, true));
  }

  lemma AboutToInsert() returns (h: History)
    ensures IsRun(h) && |h.es| == 7
    ensures h.ws[7] == World(map["u" := 0], map[0 := map[]], 1, None, map[1 := Call("u", "d", 7, Insert(0))], map[])
  {
    h := Creating();
    h := Extend(h, Run(1, true));
    h := Extend(h, Run(1, true));
  }

  lemma Emptied() returns (h: History)
    ensures IsRun(h) && |h.es| == 10 && h.ws[10] == World(
      map["u" := 0], map[0 := map[]], 1, None,
      map[1 := Call("u", "d", 7, Insert(0))], map[2 := Detach("u", Remove, {})])
  {
    h := AboutToInsert();
    h := Extend(h, BeginDetach(2, "u"));
    h := Extend(h, RunDetach(2));
    assert h.ws[9].detaches == map[2 := Detach("u", Clear(0), {})];
    h := Extend(h, RunDetach(2));
    assert h.ws[9].heap[0].Values == {};
    assert h.ws[10].heap == map[0 := map[]];
    assert h.ws[10].detaches == map[2 := Detach("u", Remove, {})];
  }

  /** A call obtains the state, the user is detached, the call inserts. */
  lemma LostBetweenObtainAndInsert() returns (h: History)
    ensures IsRun(h) && |h.es| == 12 && Removes(h, 10, "u") && Inserts(h, 11, 1, 0)
    ensures h.ws[11].calls[1] == Call("u", "d", 7, Insert(0)) && Lost(h.ws[12], "u", 7)
  {
    h := Emptied();
    h := Extend(h, RunDetach(2));
    h := Extend(h, Run(1, true));
    assert h.ws[12].detaches == map[2 := Detach("u", Detached, {})];
  }

  /** The insertion falls between the two halves of one detach: the device is registered, and the
      detach then drops the state without looking at it again. */
  lemma LostInsideDetach() returns (h: History, m: nat)
    ensures IsRun(h) && |h.es| == 12 && Inserts(h, 10, 1, 0) && h.ws[10].calls[1] == Call("u", "d", 7, Insert(0))
    ensures ObtainedAt(h, m, 1, 0) && !RemovedSince(h, m, 11, "u") && Listed(h.ws[11], "u", 7)
    ensures Removes(h, 11, "u") && Lost(h.ws[12], "u", 7)
  {
    h := Emptied();
    h := Extend(h, Run(1, true));
    assert Slot(h.ws[11], 0, "d") == Some(7);
    h := Extend(h, RunDetach(2));
    assert h.ws[12].detaches == map[2 := Detach("u", Detached, {})];
    m := StillCurrentIff(h, 10, 1);
    CurrentSince(h, m, 11, "u", 0);
  }

  lemma Registered() returns (h: History)
    ensures IsRun(h) && |h.es| == 8 && h.ws[8] == World(
      map["u" := 0], map[0 := map["d" := 7]], 1, None, map[1 := Call("u", "d", 7, Done(Some(0)))], map[])
  {
    h := AboutToInsert();
    h := Extend(h, Run(1, true));
    assert h.ws[8].heap == map[0 := map["d" := 7]];
  }

  /** Two detaches have found the same state. */
  lemma TwoDetaches() returns (h: History)
    ensures IsRun(h) && |h.es| == 12 && h.ws[12] == World(
      map["u" := 0], map[0 := map["d" := 7]], 1, None, map[1 := Call("u", "d", 7, Done(Some(0)))],
      map[2 := Detach("u", Clear(0), {}), 3 := Detach("u", Clear(0), {})])
  {
    h := Registered();
    h := Extend(h, BeginDetach(2, "u"));
    h := Extend(h, BeginDetach(3, "u"));
    h := Extend(h, RunDetach(2));
    h := Extend(h, RunDetach(3));
  }

  /** One of them has finished. */
  lemma OneFinished() returns (h: History)
    ensures IsRun(h) && |h.es| == 14 && h.ws[14] == World(
      map[], map[0 := map[]], 1, None, map[1 := Call("u", "d", 7, Done(Some(0)))],
      map[2 := Detach("u", Detached, {7}), 3 := Detach("u", Clear(0), {})])
  {
    h := TwoDetaches();
    h := Extend(h, RunDetach(2));
    assert h.ws[12].heap[0] == map["d" := 7] && h.ws[12].heap[0]["d"] == 7;
    assert h.ws[12].heap[0].Values == {7};
    assert h.ws[13].heap == map[0 := map[]];
    h := Extend(h, RunDetach(2));
  }

  lemma Recreating() returns (h: History)
    ensures IsRun(h) && |h.es| == 19 && h.ws[19] == World(
      map[], map[0 := map[]], 1, Some(4),
      map[1 := Call("u", "d", 7, Done(Some(0))), 4 := Call("u", "d", 8, Create)],
      map[2 := Detach("u", Detached, {7}), 3 := Detach("u", Clear(0), {})])
  {
    h := OneFinished();
    h := Extend(h, Begin(4, "u", "d", 8));
    h := Extend(h, Run(4, true));
    h := Extend(h, Run(4, true));
    h := Extend(h, Run(4, true));
    h := Extend(h, Run(4, true));
  }

  lemma RegisteredAgain() returns (h: History)
    ensures IsRun(h) && |h.es| == 22 && Inserts(h, 21, 4, 1) && h.ws[22] == World(
      map["u" := 1], map[0 := map[], 1 := map["d" := 8]], 2, None,
      map[1 := Call("u", "d", 7, Done(Some(0))), 4 := Call("u", "d", 8, Done(Some(1)))],
      map[2 := Detach("u", Detached, {7}), 3 := Detach("u", Clear(0), {})])
  {
    h := Recreating();
    h := Extend(h, Run(4, true));
    h := Extend(h, Run(4, true));
    h := Extend(h, Run(4, true));
    assert h.ws[22].heap == map[0 := map[], 1 := map["d" := 8]];
  }

  /** A detach that found an older state removes the user's new one, which it never emptied. */
  lemma LostToStaleDetach() returns (h: History)
    ensures IsRun(h) && |h.es| == 24 && Inserts(h, 21, 4, 1) && Listed(h.ws[22], "u", 8)
    ensures Removes(h, 23, "u") && Lost(h.ws[24], "u", 8)
  {
    h := RegisteredAgain();
    assert Slot(h.ws[22], 1, "d") == Some(8);
    h := Extend(h, RunDetach(3));
    assert h.ws[22].heap[0].Values == {};
    h := Extend(h, RunDetach(3));
    assert h.ws[24].detaches == map[2 := Detach("u", Detached, {7}), 3 := Detach("u", Detached, {})];
  }
}
