/** A whole conversation: a list of SendUpdate calls over a transport, read back with NextUpdate. */
module UpdateExchange {
  import opened Options
  import opened Bytes
  import opened Frames
  import opened QuicStreams
  import opened Updates

  /** The arguments of one SendUpdate, and whether the session is revoked at the call. */
  datatype Request = Request(end: bool, update: Option<Message>, revoked: bool)

  /** The calls made so far as the transport made them turn out, its remaining answers, and whether it
      took no header in part without an error. */
  datatype Progress = Progress(calls: seq<Call>, answers: seq<WriteAnswer>, intact: bool)

  function Advance(marshal: Envelope -> Message, p: Progress, x: Request): Progress {
    var s := SenderAt(p.calls, |p.calls|);
    var f := Writing(marshal, s, x.end, x.update, x.revoked);
    Progress(
      p.calls + [CallFor(marshal, s, p.answers, x.end, x.update, x.revoked)],
      if f.None? then p.answers else AfterFrame(p.answers, f.value).rest,
      p.intact && (f.None? || HeaderTaken(p.answers) == HEADER_SIZE || Fails(p.answers)))
  }

  function ProgressAt(marshal: Envelope -> Message, answers: seq<WriteAnswer>, xs: seq<Request>, n: nat): (p: Progress)
    requires n <= |xs|
    ensures |p.calls| == n
  {
    if n == 0 then Progress([], answers, true)
    else Advance(marshal, ProgressAt(marshal, answers, xs, n - 1), xs[n - 1])
  }

  // ---------------------------------------------------------------- sending

  lemma {:induction false} EarlierCalls(marshal: Envelope -> Message, cs: seq<Call>, c: Call, n: nat)
    requires n <= |cs|
    ensures SenderAt(cs + [c], n) == SenderAt(cs, n) && Wire(marshal, cs + [c], n) == Wire(marshal, cs, n)
  {
    if n > 0 {
      EarlierCalls(marshal, cs, c, n - 1);
    }
  }

  lemma OneMoreCall(marshal: Envelope -> Message, cs: seq<Call>, c: Call)
    ensures var s, all := SenderAt(cs, |cs|), cs + [c];
      && SenderAt(all, |all|) == AfterCall(s, c)
      && Wire(marshal, all, |all|) == Wire(marshal, cs, |cs|) + BytesOut(marshal, s, c)
  {
    EarlierCalls(marshal, cs, c, |cs|);
  }

  lemma {:induction false} FaithfulEarlier(marshal: Envelope -> Message, cs: seq<Call>, c: Call, n: nat)
    requires n <= |cs| && FaithfulFirst(marshal, cs, n)
    ensures FaithfulFirst(marshal, cs + [c], n)
  {
    if n > 0 {
      FaithfulEarlier(marshal, cs, c, n - 1);
      EarlierCalls(marshal, cs, c, n - 1);
    }
  }

  lemma FaithfulSnoc(marshal: Envelope -> Message, cs: seq<Call>, c: Call)
    requires Faithful(marshal, cs) && FaithfulCall(marshal, SenderAt(cs, |cs|), c)
    ensures Faithful(marshal, cs + [c])
  {
    FaithfulEarlier(marshal, cs, c, |cs|);
    EarlierCalls(marshal, cs, c, |cs|);
  }

  /** The answers are always faithful. */
  lemma {:induction false} AlwaysFaithful(marshal: Envelope -> Message, answers: seq<WriteAnswer>, xs: seq<Request>,
                                          n: nat)
    requires n <= |xs|
    ensures Faithful(marshal, ProgressAt(marshal, answers, xs, n).calls)
  {
    if n > 0 {
      AlwaysFaithful(marshal, answers, xs, n - 1);
      var p, x := ProgressAt(marshal, answers, xs, n - 1), xs[n - 1];
      var s := SenderAt(p.calls, |p.calls|);
      FaithfulSnoc(marshal, p.calls, CallFor(marshal, s, p.answers, x.end, x.update, x.revoked));
    }
  }

  lemma NothingWritten(marshal: Envelope -> Message, s: Sender, answers: seq<WriteAnswer>, x: Request)
    requires Writing(marshal, s, x.end, x.update, x.revoked).None?
    ensures BytesOut(marshal, s, CallFor(marshal, s, answers, x.end, x.update, x.revoked)) == []
  {
  }

  /** Sender and stream stand where the progress says, counted from the bytes `start`. */
  ghost predicate Reached(server: ServerUpdatesContext, p: Progress, start: seq<byte>)
    reads server, server.stream
  {
    && server.State() == SenderAt(p.calls, |p.calls|) && server.stream.answers == p.answers
    && (p.intact ==> server.stream.sent == start + Wire(server.marshal, p.calls, |p.calls|))
  }

  method SendOne(server: ServerUpdatesContext, x: Request, ghost p: Progress, ghost start: seq<byte>)
    requires Reached(server, p, start)
    modifies server, server.stream
    ensures Reached(server, Advance(server.marshal, p, x), start)
  {
    ghost var marshal, s := server.marshal, server.State();
    ghost var c := CallFor(marshal, s, p.answers, x.end, x.update, x.revoked);
    OneMoreCall(marshal, p.calls, c);
    Assoc(start, Wire(marshal, p.calls, |p.calls|), BytesOut(marshal, s, c));
    if Writing(marshal, s, x.end, x.update, x.revoked).None? {
      NothingWritten(marshal, s, p.answers, x);
    }
    var _ := server.SendUpdate(x.end, x.update, x.revoked);
  }

  method SendUpdates(server: ServerUpdatesContext, xs: seq<Request>)
    requires server.State() == NEW_SENDER
    modifies server, server.stream
    ensures Reached(server, ProgressAt(server.marshal, old(server.stream.answers), xs, |xs|), old(server.stream.sent))
  {
    ghost var answers, start := server.stream.answers, server.stream.sent;
    assert start + [] == start;
    var i := 0;
    while i < |xs|
      invariant 0 <= i <= |xs|
      invariant Reached(server, ProgressAt(server.marshal, answers, xs, i), start)
    {
      SendOne(server, xs[i], ProgressAt(server.marshal, answers, xs, i), start);
      i := i + 1;
    }
  }

  // ---------------------------------------------------------------- reading

  /** The envelopes that a receiver accepts of what it is offered. */
  function TakenOf(r: Receiver, ins: seq<Incoming>): seq<Envelope>
    decreases |ins|
  {
    if ins == [] then []
    else (if Accepts(r, ins[0]) then [ins[0].envelope] else []) + TakenOf(AfterRead(r, ins[0]), ins[1..])
  }

  lemma {:induction false} NothingAfterEnd(r: Receiver, ins: seq<Incoming>)
    requires r.ended
    ensures TakenOf(r, ins) == []
    decreases |ins|
  {
    if ins != [] {
      NothingAfterEnd(r, ins[1..]);
    }
  }

  lemma ReceivedStep(unmarshal: Message -> Incoming, b: seq<byte>)
    ensures Decode(b).Incomplete? ==> Received(unmarshal, b) == []
    ensures Decode(b).Whole? ==>
      Received(unmarshal, b) == [unmarshal(Decode(b).frame.payload)] + Received(unmarshal, Decode(b).rest)
  {
    if Decode(b).Whole? {
      DecodeAllStep(b);
    }
  }

  lemma TakenStep(r: Receiver, item: Incoming, ins: seq<Incoming>)
    ensures TakenOf(r, [item] + ins) ==
            (if Accepts(r, item) then [item.envelope] else []) + TakenOf(AfterRead(r, item), ins)
  {
    assert ([item] + ins)[1..] == ins;
  }

  /** What the client would still hand out. */
  ghost function Ahead(client: ClientUpdatesContext): seq<Envelope>
    reads client, client.stream
  {
    TakenOf(client.State(), Received(client.unmarshal, client.stream.incoming))
  }

  /** One NextUpdate hands out the first envelope ahead, or nothing and there may be more. */
  method ReadOne(client: ClientUpdatesContext) returns (got: seq<Envelope>, done: bool)
    requires !client.ended
    modifies client, client.stream
    ensures old(Ahead(client)) == got + Ahead(client)
    ensures if done then Ahead(client) == [] else |client.stream.incoming| < |old(client.stream.incoming)|
  {
    ghost var r, b := client.State(), client.stream.incoming;
    ReceivedStep(client.unmarshal, b);
    ReceivedStep(client.unmarshal, []);
    var last, err := client.NextUpdate(false);
    if err.NothingToRead? {
      return [], true;
    }
    TakenStep(r, client.unmarshal(Decode(b).frame.payload), Received(client.unmarshal, client.stream.incoming));
    return if err.NoReadError? then [Envelope(client.number, last, client.update)] else [], false;
  }

  lemma Regroup(a: seq<Envelope>, b: seq<Envelope>, c: seq<Envelope>)
    ensures a + (b + c) == (a + b) + c
  {
  }

  /** Calls NextUpdate until it reports the end or that nothing is left. */
  method ReadUpdates(client: ClientUpdatesContext) returns (got: seq<Envelope>)
    modifies client, client.stream
    ensures got == old(Ahead(client))
  {
    ghost var all := Ahead(client);
    got := [];
    assert [] + all == all;
    var done := false;
    while !client.ended && !done
      invariant got + Ahead(client) == all && (done ==> Ahead(client) == [])
      decreases !done, |client.stream.incoming|
    {
      var more;
      more, done := ReadOne(client);
      Regroup(got, more, Ahead(client));
      got := got + more;
    }
    if client.ended {
      NothingAfterEnd(client.State(), Received(client.unmarshal, client.stream.incoming));
    }
    assert got + [] == got;
  }

  // ---------------------------------------------------------------- both ends

  /** What is accepted from item k on, seen from the whole input. */
  lemma {:induction false} TakenFrom(ins: seq<Incoming>, k: nat)
    requires k <= |ins|
    ensures |TakenOf(ReceiverAt(ins, k), ins[k..])| <= |ins| - k
    ensures |TakenOf(ReceiverAt(ins, k), ins[k..])| == |ins| - k <==> forall p :: k <= p < |ins| ==> AcceptedAt(ins, p)
    decreases |ins| - k
  {
    if k < |ins| {
      TakenFrom(ins, k + 1);
      assert ins[k..][1..] == ins[k + 1..];
      assert (forall p :: k <= p < |ins| ==> AcceptedAt(ins, p)) <==>
        AcceptedAt(ins, k) && forall p :: k + 1 <= p < |ins| ==> AcceptedAt(ins, p);
    }
  }

  lemma {:induction false} AllTakenFrom(es: seq<Envelope>, k: nat)
    requires k <= |es| && AllTaken(es)
    ensures TakenOf(ReceiverAt(Updates.Updates(es), k), Updates.Updates(es)[k..]) == es[k..]
    decreases |es| - k
  {
    if k < |es| {
      var ins := Updates.Updates(es);
      AllTakenFrom(es, k + 1);
      assert AcceptedAt(ins, k);
      assert ins[k..][1..] == ins[k + 1..] && es[k..] == [es[k]] + es[k + 1..];
    }
  }

  /** All of a stream is handed out, in order, if and only if the receiver accepts all of it. */
  lemma HandedOutIff(es: seq<Envelope>)
    ensures TakenOf(NEW_RECEIVER, Updates.Updates(es)) == es <==> AllTaken(es)
  {
    var ins := Updates.Updates(es);
    TakenFrom(ins, 0);
    assert ins[0..] == ins && es[0..] == es;
    if AllTaken(es) {
      AllTakenFrom(es, 0);
    }
  }

  /** Updates sent at one end and read at the other, with any inverse pair of encodings. If no header is
      taken in part without an error and nothing is written after a send that was cut off, then
      NextUpdate hands out exactly the envelopes that went out whole, in order, if and only if none of
      them follows one whose send was reported as failed; in particular when nothing at all is written
      after a failed send that wrote at least one byte. */
  method Converse(server: ServerUpdatesContext, client: ClientUpdatesContext, xs: seq<Request>)
    returns (got: seq<Envelope>)
    requires server.State() == NEW_SENDER && client.State() == NEW_RECEIVER
    requires server.stream != client.stream && server.stream.sent == [] && client.stream.incoming == []
    requires forall e :: client.unmarshal(server.marshal(e)) == Decoded(e)
    modifies server, client, server.stream, client.stream
    ensures var p := ProgressAt(server.marshal, old(server.stream.answers), xs, |xs|);
      && (p.intact && QuietAfterCut(p.calls) ==>
            (got == Stream(p.calls, |xs|) <==> AckedBeforeLast(Acks(p.calls, |xs|))))
      && (p.intact && QuietAfterFailure(p.calls) ==> got == Stream(p.calls, |xs|))
  {
    ghost var p := ProgressAt(server.marshal, server.stream.answers, xs, |xs|);
    SendUpdates(server, xs);
    client.stream.incoming := server.stream.sent;
    ghost var wire := Wire(server.marshal, p.calls, |xs|);
    assert [] + wire == wire;
    got := ReadUpdates(client);
    AlwaysFaithful(server.marshal, old(server.stream.answers), xs, |xs|);
    HandedOutIff(Stream(p.calls, |xs|));
    if p.intact && QuietAfterCut(p.calls) {
      DeliveredIff(server.marshal, client.unmarshal, p.calls);
    }
    if p.intact && QuietAfterFailure(p.calls) {
      DeliveredWhenQuiet(server.marshal, client.unmarshal, p.calls);
    }
  }
}
