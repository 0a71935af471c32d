/** Update streams: the numbering sender of context_updates_server.go and the checking receiver of
    context_updates_client.go, down to the bytes between them. Sequence numbers are 64-bit and wrap
    around on both sides. */
module Updates {
  import opened Options
  import opened Bytes
  import opened Frames
  import opened QuicStreams

  const WRAP: nat := 0x1_0000_0000_0000_0000

  type Message = seq<byte>

  datatype Envelope = Envelope(number: nat, end: bool, update: Message)

  function Succ(n: nat): nat { (n + 1) % WRAP }

  // ---------------------------------------------------------------- sender

  /** How the write below SendUpdate turned out: it succeeded; it returned an error and wrote nothing
      (a revoked session, for one); it returned an error although everything was out; or it returned
      one after some bytes of the frame. */
  datatype Answer = Sent | Refused | LostAck | CutOff(taken: nat)

  /** One call of SendUpdate; no update stands for a nil message. */
  datatype Call = Send(end: bool, update: Message, answer: Answer) | SendNil(end: bool)

  datatype SendError = NoSendError | UpdateBodyRequired | WriteFailed

  datatype Sender = Sender(nextSeq: nat, ended: bool)

  const NEW_SENDER := Sender(0, false)

  /** The call puts a whole envelope on the stream. */
  predicate Emits(s: Sender, c: Call) {
    !s.ended && c.Send? && (c.answer.Sent? || c.answer.LostAck?)
  }

  function AfterCall(s: Sender, c: Call): Sender {
    if !s.ended && c.Send? && c.answer.Sent? then Sender(Succ(s.nextSeq), c.end) else s
  }

  /** The whole envelope a call puts on the stream, if any. */
  function Output(s: Sender, c: Call): seq<Envelope> {
    if Emits(s, c) then [Envelope(s.nextSeq, c.end, c.update)] else []
  }

  const DATA_FRAME: byte := 5

  function FrameOf(marshal: Envelope -> Message, e: Envelope): Frame {
    Frame(DATA_FRAME, |marshal(e)|, marshal(e))
  }

  /** The bytes a call puts on the stream. */
  function BytesOut(marshal: Envelope -> Message, s: Sender, c: Call): seq<byte> {
    if s.ended || c.SendNil? || c.answer.Refused? then []
    else
      var e := Envelope(s.nextSeq, c.end, c.update);
      if |marshal(e)| > MAX_PAYLOAD then []
      else
        var wire := Encode(FrameOf(marshal, e));
        if c.answer.CutOff? && c.answer.taken <= |wire| then wire[..c.answer.taken] else wire
  }

  /** What an acknowledged call puts on the stream: a data frame, of type 5, whose payload is the envelope
      with the number that is due. A call that is cut off puts a first part of the same bytes there. */
  lemma UpdateOnWire(marshal: Envelope -> Message, s: Sender, c: Call)
    requires c.Send? && !s.ended && |marshal(Envelope(s.nextSeq, c.end, c.update))| < 4_294_967_296
    ensures var out, body := BytesOut(marshal, s, c), marshal(Envelope(s.nextSeq, c.end, c.update));
      && (c.answer.Refused? ==> out == [])
      && (c.answer.Sent? || c.answer.LostAck? ==>
            && |out| == 5 + |body| && out[0] == 5 && out[5..] == body
            && |body| == LengthAt(out))
      && (c.answer.CutOff? && c.answer.taken <= 5 + |body| ==>
            out == BytesOut(marshal, s, c.(answer := Sent))[..c.answer.taken])
  {
    WireFormat(FrameOf(marshal, Envelope(s.nextSeq, c.end, c.update)));
  }

  /** How a transport that answers writes as `answers` says answers the sending of frame f. */
  function AnswerOf(revoked: bool, answers: seq<WriteAnswer>, f: Frame): (a: Answer)
    ensures !a.Refused? ==> |f.payload| <= MAX_PAYLOAD
    ensures a.CutOff? ==> 0 < a.taken < HEADER_SIZE + |f.payload|
  {
    if revoked || |f.payload| > MAX_PAYLOAD then Refused
    else if AfterFrame(answers, f).err.NoError? then Sent
    else
      var n := HeaderTaken(answers) + PayloadTaken(answers, |f.payload|);
      if n == 0 then Refused else if n == HEADER_SIZE + |f.payload| then LostAck else CutOff(n)
  }

  /** A call of SendUpdate as the transport makes it turn out. */
  function CallFor(marshal: Envelope -> Message, s: Sender, answers: seq<WriteAnswer>,
                   end: bool, update: Option<Message>, revoked: bool): Call
  {
    if update.None? then SendNil(end)
    else Send(end, update.value, AnswerOf(revoked, answers, FrameOf(marshal, Envelope(s.nextSeq, end, update.value))))
  }

  /** The frame that a call of SendUpdate hands to the stream, if it gets that far. */
  function Writing(marshal: Envelope -> Message, s: Sender, end: bool, update: Option<Message>, revoked: bool)
    : (f: Option<Frame>)
    ensures f.Some? ==> |f.value.payload| <= MAX_PAYLOAD
  {
    if s.ended || update.None? || revoked then None
    else
      var f := FrameOf(marshal, Envelope(s.nextSeq, end, update.value));
      if |f.payload| > MAX_PAYLOAD then None else Some(f)
  }

  class ServerUpdatesContext {
    const stream: QuicStream
    const marshal: Envelope -> Message
    var nextSeq: nat
    var ended: bool

    ghost function State(): Sender
      reads this
    {
      Sender(nextSeq, ended)
    }

    constructor (stream: QuicStream, marshal: Envelope -> Message)
      ensures State() == NEW_SENDER && this.stream == stream && this.marshal == marshal
    {
      this.stream, this.marshal, nextSeq, ended := stream, marshal, 0, false;
    }

    ghost function CallOf(end: bool, update: Option<Message>, revoked: bool): Call
      reads this, stream
    {
      CallFor(marshal, State(), stream.answers, end, update, revoked)
    }

    /** `revoked` says whether the session is revoked at the call. The frame is written exactly when the
        call gets as far as the stream, and the bytes are as BytesOut says unless the transport takes
        part of the header without an error. */
    method SendUpdate(end: bool, update: Option<Message>, revoked: bool) returns (err: SendError)
      modifies this, stream
      ensures var c := old(CallOf(end, update, revoked));
        && State() == AfterCall(old(State()), c)
        && err == (if old(ended) then NoSendError else if c.SendNil? then UpdateBodyRequired
                   else if c.answer.Sent? then NoSendError else WriteFailed)
        && (HeaderTaken(old(stream.answers)) == HEADER_SIZE || Fails(old(stream.answers)) ==>
              stream.sent == old(stream.sent) + BytesOut(marshal, old(State()), c))
      ensures var sending := Writing(marshal, old(State()), end, update, revoked);
        && stream.sent == old(stream.sent) + (if sending.None? then [] else SentOf(old(stream.answers), sending.value))
        && stream.answers ==
           if sending.None? then old(stream.answers) else AfterFrame(old(stream.answers), sending.value).rest
    {
      if ended {
        return NoSendError;
      }
      if update.None? {
        return UpdateBodyRequired;
      }
      if revoked {
        return WriteFailed;
      }
      var f := FrameOf(marshal, Envelope(nextSeq, end, update.value));
      var failure := stream.WriteFrame(f);
      if |f.payload| <= MAX_PAYLOAD
         && (HeaderTaken(old(stream.answers)) == HEADER_SIZE || Fails(old(stream.answers))) {
        SentIsCut(old(stream.answers), f);
      }
      if !failure.NoError? {
        return WriteFailed;
      }
      nextSeq := (nextSeq + 1) % WRAP;
      ended := end;
      return NoSendError;
    }
  }

  /** Unless part of the header is lost silently, what is sent is the encoding cut to its length. */
  lemma SentIsCut(answers: seq<WriteAnswer>, f: Frame)
    requires |f.payload| <= MAX_PAYLOAD && (HeaderTaken(answers) == HEADER_SIZE || Fails(answers))
    ensures var n := HeaderTaken(answers) + PayloadTaken(answers, |f.payload|);
      && n <= |Encode(f)| && SentOf(answers, f) == Encode(f)[..n]
      && (AfterFrame(answers, f).err.NoError? ==> n == |Encode(f)|)
  {
  }

  // ---------------------------------------------------------------- receiver

  datatype Incoming = Decoded(envelope: Envelope) | Undecodable

  datatype Receiver = Receiver(nextSeq: nat, ended: bool)

  const NEW_RECEIVER := Receiver(0, false)

  predicate Accepts(r: Receiver, i: Incoming) {
    !r.ended && i.Decoded? && i.envelope.number == r.nextSeq
  }

  function AfterRead(r: Receiver, i: Incoming): Receiver {
    if Accepts(r, i) then Receiver(Succ(r.nextSeq), i.envelope.end) else r
  }

  datatype ReceiveError = NoReadError | SessionRevoked | NothingToRead | DecodeFailed | InvalidSequence

  class ClientUpdatesContext {
    const stream: QuicStream
    const unmarshal: Message -> Incoming
    var nextSeq: nat
    var ended: bool
    var number: nat      // sequence number of the update accepted last
    var update: Message  // and its body

    ghost function State(): Receiver
      reads this
    {
      Receiver(nextSeq, ended)
    }

    constructor (stream: QuicStream, unmarshal: Message -> Incoming)
      ensures State() == NEW_RECEIVER && this.stream == stream && this.unmarshal == unmarshal
    {
      this.stream, this.unmarshal := stream, unmarshal;
      nextSeq, ended, number, update := 0, false, 0, [];
    }

    /** `revoked` says whether the session is revoked at the call. */
    method NextUpdate(revoked: bool) returns (last: bool, err: ReceiveError)
      modifies this, stream
      ensures old(ended) ==> last && err.NoReadError? && unchanged(this) && unchanged(stream)
      ensures !old(ended) && revoked ==> !last && err.SessionRevoked? && unchanged(this) && unchanged(stream)
      ensures !old(ended) && !revoked && Decode(old(stream.incoming)).Incomplete? ==>
        !last && err.NothingToRead? && unchanged(this) && stream.incoming == []
      ensures !old(ended) && !revoked && Decode(old(stream.incoming)).Whole? ==>
        var parsed := Decode(old(stream.incoming));
        var item := unmarshal(parsed.frame.payload);
        && stream.incoming == parsed.rest && State() == AfterRead(old(State()), item)
        && (err.NoReadError? <==> Accepts(old(State()), item))
        && (err.DecodeFailed? <==> item.Undecodable?) && !err.SessionRevoked? && !err.NothingToRead?
        && (err.NoReadError? ==> Envelope(number, last, update) == item.envelope)
        && (!err.NoReadError? ==> !last && number == old(number) && update == old(update))
    {
      if ended {
        return true, NoReadError;
      }
      if revoked {
        return false, SessionRevoked;
      }
      var frame := stream.ReadFrame();
      if !frame.Ok? {
        return false, NothingToRead;
      }
      var item := unmarshal(frame.frame.payload);
      if item.Undecodable? {
        return false, DecodeFailed;
      }
      var envelope := item.envelope;
      if envelope.number != nextSeq {
        return false, InvalidSequence;
      }
      nextSeq := (nextSeq + 1) % WRAP;
      number := envelope.number;
      update := envelope.update;
      ended := envelope.end;
      return ended, NoReadError;
    }
  }

  // ---------------------------------------------------------------- arbitrary input: the greedy subsequence

  /** The receiver after it was offered the first n items. */
  function ReceiverAt(ins: seq<Incoming>, n: nat): (r: Receiver)
    requires n <= |ins|
    ensures r.nextSeq < WRAP
  {
    if n == 0 then NEW_RECEIVER else AfterRead(ReceiverAt(ins, n - 1), ins[n - 1])
  }

  predicate AcceptedAt(ins: seq<Incoming>, p: nat)
    requires p < |ins|
  {
    Accepts(ReceiverAt(ins, p), ins[p])
  }

  function Count(flags: seq<bool>): nat {
    if flags == [] then 0 else Count(flags[..|flags| - 1]) + if flags[|flags| - 1] then 1 else 0
  }

  /** flags mark the greedy subsequence of ins numbered 0, 1, 2, ...: an item is in it exactly when
      its number is how many were taken before it and none of those carried the end flag. */
  ghost predicate Greedy(ins: seq<Incoming>, flags: seq<bool>) {
    && |flags| == |ins|
    && forall p :: 0 <= p < |ins| ==> (flags[p] <==> Next(ins, flags, p))
  }

  ghost predicate Next(ins: seq<Incoming>, flags: seq<bool>, p: nat)
    requires |flags| == |ins| && p < |ins|
  {
    && ins[p].Decoded? && ins[p].envelope.number == Count(flags[..p]) % 18_446_744_073_709_551_616
    && forall q :: 0 <= q < p && flags[q] && ins[q].Decoded? ==> !ins[q].envelope.end
  }

  function AcceptedFlags(ins: seq<Incoming>): (flags: seq<bool>)
    ensures |flags| == |ins| && forall p :: 0 <= p < |ins| ==> flags[p] == AcceptedAt(ins, p)
  {
    seq(|ins|, p requires 0 <= p < |ins| => AcceptedAt(ins, p))
  }

  lemma {:induction false} ReceiverCounts(ins: seq<Incoming>, n: nat)
    requires n <= |ins|
    ensures ReceiverAt(ins, n).nextSeq == Count(AcceptedFlags(ins)[..n]) % WRAP
  {
    if n > 0 {
      var flags := AcceptedFlags(ins);
      ReceiverCounts(ins, n - 1);
      assert flags[..n] == flags[..n - 1] + [flags[n - 1]];
      CountSnoc(flags[..n - 1], flags[n - 1]);
      Wraps(Count(flags[..n - 1]));
    }
  }

  lemma {:induction false} ReceiverEnds(ins: seq<Incoming>, n: nat)
    requires n <= |ins|
    ensures ReceiverAt(ins, n).ended <==> exists q :: 0 <= q < n && AcceptedAt(ins, q) && ins[q].envelope.end
  {
    if n > 0 {
      ReceiverEnds(ins, n - 1);
      if AcceptedAt(ins, n - 1) {
        assert !ReceiverAt(ins, n - 1).ended;
      }
    }
  }

  lemma CountSnoc(flags: seq<bool>, b: bool)
    ensures Count(flags + [b]) == Count(flags) + if b then 1 else 0
  {
    assert (flags + [b])[..|flags|] == flags;
  }

  lemma Wraps(k: nat)
    ensures Succ(k % WRAP) == (k + 1) % WRAP
  {
  }

  /** For arbitrary input the receiver accepts exactly the greedy subsequence. */
  lemma AcceptedIsGreedy(ins: seq<Incoming>)
    ensures Greedy(ins, AcceptedFlags(ins))
  {
    forall p | 0 <= p < |ins| ensures AcceptedAt(ins, p) <==> Next(ins, AcceptedFlags(ins), p) {
      ReceiverCounts(ins, p);
      ReceiverEnds(ins, p);
    }
  }

  /** There is only one greedy subsequence. */
  lemma {:induction false} GreedyIsUnique(ins: seq<Incoming>, a: seq<bool>, b: seq<bool>, n: nat)
    requires Greedy(ins, a) && Greedy(ins, b) && n <= |ins|
    ensures a[..n] == b[..n]
  {
    if n > 0 {
      GreedyIsUnique(ins, a, b, n - 1);
      forall q | 0 <= q < n - 1 ensures a[q] == b[q] {
        assert a[q] == a[..n - 1][q] && b[q] == b[..n - 1][q];
      }
      assert Next(ins, a, n - 1) <==> Next(ins, b, n - 1);
      assert a[..n] == a[..n - 1] + [a[n - 1]] && b[..n] == b[..n - 1] + [b[n - 1]];
    }
  }

  // ---------------------------------------------------------------- sender to receiver

  function SenderAt(cs: seq<Call>, n: nat): (s: Sender)
    requires n <= |cs|
    ensures s.nextSeq < WRAP
  {
    if n == 0 then NEW_SENDER else AfterCall(SenderAt(cs, n - 1), cs[n - 1])
  }

  /** The stream after the first n calls. */
  function Stream(cs: seq<Call>, n: nat): seq<Envelope>
    requires n <= |cs|
  {
    if n == 0 then [] else Stream(cs, n - 1) + Output(SenderAt(cs, n - 1), cs[n - 1])
  }

  function Ack(s: Sender, c: Call): (acks: seq<bool>)
    ensures |acks| == |Output(s, c)|
  {
    if Emits(s, c) then [c.answer.Sent?] else []
  }

  /** For each envelope on the stream, whether the sender saw it as sent. */
  function Acks(cs: seq<Call>, n: nat): (acks: seq<bool>)
    requires n <= |cs|
    ensures |acks| == |Stream(cs, n)|
  {
    if n == 0 then [] else Acks(cs, n - 1) + Ack(SenderAt(cs, n - 1), cs[n - 1])
  }

  /** Envelopes are numbered by the acknowledged ones before them, and nothing follows an
      acknowledged end. */
  ghost predicate Numbered(es: seq<Envelope>, acks: seq<bool>)
    requires |acks| == |es|
  {
    var k := |es| - 1;
    es != [] ==>
      && Numbered(es[..k], acks[..k]) && es[k].number == Count(acks[..k]) % 18_446_744_073_709_551_616
      && (k > 0 && acks[k - 1] ==> !es[k - 1].end)
  }

  lemma {:induction false} NumberedAt(es: seq<Envelope>, acks: seq<bool>, i: nat)
    requires |acks| == |es| && Numbered(es, acks) && i < |es|
    ensures es[i].number == Count(acks[..i]) % 18_446_744_073_709_551_616
    ensures i < |es| - 1 && acks[i] ==> !es[i].end
  {
    var k := |es| - 1;
    if i < k {
      NumberedAt(es[..k], acks[..k], i);
      assert acks[..k][..i] == acks[..i];
    }
  }

  /** The sender stands at the count of acknowledged envelopes, and has ended exactly when the last
      one was an acknowledged end. */
  ghost predicate InStep(es: seq<Envelope>, acks: seq<bool>, s: Sender)
    requires |acks| == |es|
  {
    && s.nextSeq == Count(acks) % WRAP
    && (s.ended <==> |es| > 0 && acks[|es| - 1] && es[|es| - 1].end)
  }

  lemma EmitInStep(es: seq<Envelope>, acks: seq<bool>, s: Sender, c: Call)
    requires |acks| == |es| && Numbered(es, acks) && InStep(es, acks, s) && Emits(s, c)
    ensures Numbered(es + Output(s, c), acks + [c.answer.Sent?])
    ensures InStep(es + Output(s, c), acks + [c.answer.Sent?], AfterCall(s, c))
  {
    var es', acks' := es + Output(s, c), acks + [c.answer.Sent?];
    assert es'[..|es|] == es && acks'[..|es|] == acks;
    CountSnoc(acks, c.answer.Sent?);
    Wraps(Count(acks));
  }

  ghost predicate Kept(es: seq<Envelope>, acks: seq<bool>, s: Sender) {
    |acks| == |es| && Numbered(es, acks) && InStep(es, acks, s)
  }

  lemma StepKept(es: seq<Envelope>, acks: seq<bool>, s: Sender, c: Call)
    requires Kept(es, acks, s)
    ensures Kept(es + Output(s, c), acks + Ack(s, c), AfterCall(s, c))
  {
    if Emits(s, c) {
      EmitInStep(es, acks, s, c);
    } else {
      assert es + Output(s, c) == es && acks + Ack(s, c) == acks;
    }
  }

  lemma {:induction false} AlwaysKept(cs: seq<Call>, n: nat)
    requires n <= |cs|
    ensures Kept(Stream(cs, n), Acks(cs, n), SenderAt(cs, n))
  {
    if n > 0 {
      AlwaysKept(cs, n - 1);
      StepKept(Stream(cs, n - 1), Acks(cs, n - 1), SenderAt(cs, n - 1), cs[n - 1]);
    }
  }

  lemma StreamNumbered(cs: seq<Call>, n: nat)
    requires n <= |cs|
    ensures Numbered(Stream(cs, n), Acks(cs, n)) && InStep(Stream(cs, n), Acks(cs, n), SenderAt(cs, n))
  {
    AlwaysKept(cs, n);
  }

  function Updates(es: seq<Envelope>): (ins: seq<Incoming>)
    ensures |ins| == |es| && forall i :: 0 <= i < |es| ==> ins[i] == Decoded(es[i])
  {
    seq(|es|, i requires 0 <= i < |es| => Decoded(es[i]))
  }

  lemma {:induction false} CountAll(flags: seq<bool>)
    requires forall i :: 0 <= i < |flags| ==> flags[i]
    ensures Count(flags) == |flags|
  {
    if flags != [] {
      CountAll(flags[..|flags| - 1]);
    }
  }

  /** The receiver accepts every envelope of the stream. */
  ghost predicate AllTaken(es: seq<Envelope>) {
    forall p :: 0 <= p < |es| ==> AcceptedAt(Updates(es), p)
  }

  /** Every envelope but perhaps the last was acknowledged to the sender. */
  ghost predicate AckedBeforeLast(acks: seq<bool>) {
    forall i :: 0 <= i < |acks| - 1 ==> acks[i]
  }

  /** Every whole envelope the sender put on the stream is accepted, in order, if and only if none
      follows one whose send was reported as failed although it went out. */
  lemma WholeDeliveredIff(cs: seq<Call>)
    ensures AllTaken(Stream(cs, |cs|)) <==> AckedBeforeLast(Acks(cs, |cs|))
  {
    StreamNumbered(cs, |cs|);
    NumberedDeliveredIff(Stream(cs, |cs|), Acks(cs, |cs|));
  }

  lemma NumberedDeliveredIff(es: seq<Envelope>, acks: seq<bool>)
    requires |acks| == |es| && Numbered(es, acks)
    ensures AllTaken(es) <==> AckedBeforeLast(acks)
  {
    if AckedBeforeLast(acks) {
      forall p | 0 <= p < |es| ensures AcceptedAt(Updates(es), p) {
        AllAccepted(es, acks, p);
      }
    } else {
      var i :| 0 <= i < |es| - 1 && !acks[i];
      RepeatedNumber(es, acks, i);
    }
  }

  /** After an envelope whose acknowledgement was lost the number is used again, and the receiver
      does not take both. */
  lemma RepeatedNumber(es: seq<Envelope>, acks: seq<bool>, i: nat)
    requires |acks| == |es| && Numbered(es, acks) && i + 1 < |es| && !acks[i]
    ensures !(AcceptedAt(Updates(es), i) && AcceptedAt(Updates(es), i + 1))
  {
    assert es[i + 1].number == es[i].number by {
      assert acks[..i + 1] == acks[..i] + [false];
      CountSnoc(acks[..i], false);
      NumberedAt(es, acks, i);
      NumberedAt(es, acks, i + 1);
    }
    NotBoth(Updates(es), i);
  }

  lemma NotBoth(ins: seq<Incoming>, i: nat)
    requires i + 1 < |ins| && ins[i].Decoded? && ins[i + 1].Decoded?
    requires ins[i + 1].envelope.number == ins[i].envelope.number
    ensures !(AcceptedAt(ins, i) && AcceptedAt(ins, i + 1))
  {
  }

  lemma {:induction false} AllAccepted(es: seq<Envelope>, acks: seq<bool>, p: nat)
    requires |acks| == |es| && Numbered(es, acks) && p < |es|
    requires forall i :: 0 <= i < |es| - 1 ==> acks[i]
    ensures AcceptedAt(Updates(es), p) && ReceiverAt(Updates(es), p) == Receiver(p % WRAP, false)
    ensures es[p].number == p % WRAP && (p < |es| - 1 ==> !es[p].end)
  {
    CountAll(acks[..p]);
    NumberedAt(es, acks, p);
    if p > 0 {
      AllAccepted(es, acks, p - 1);
      Wraps(p - 1);
    }
  }

  /** The stream arrives whole: accepted in order and numbered from 0, the end flag on the last
      envelope and there exactly when the sender has ended, and the receiver in the sender's state. */
  ghost predicate Arrives(es: seq<Envelope>, s: Sender) {
    && AllTaken(es)
    && (forall p :: 0 <= p < |es| ==> es[p].number == p % WRAP)
    && (forall p :: 0 <= p < |es| ==> (es[p].end <==> p == |es| - 1 && s.ended))
    && ReceiverAt(Updates(es), |es|) == Receiver(|es| % WRAP, s.ended)
  }

  lemma AckedArrives(es: seq<Envelope>, acks: seq<bool>, s: Sender)
    requires |acks| == |es| && Numbered(es, acks) && InStep(es, acks, s)
    requires forall i :: 0 <= i < |acks| ==> acks[i]
    ensures Arrives(es, s)
  {
    ArrivalState(es, acks, s);
    assert AllTaken(es) by { NumberedDeliveredIff(es, acks); }
    forall p | 0 <= p < |es|
      ensures es[p].number == p % WRAP && (es[p].end <==> p == |es| - 1 && s.ended)
    {
      AllAccepted(es, acks, p);
    }
  }

  lemma ArrivalState(es: seq<Envelope>, acks: seq<bool>, s: Sender)
    requires |acks| == |es| && Numbered(es, acks) && InStep(es, acks, s)
    requires forall i :: 0 <= i < |acks| ==> acks[i]
    ensures ReceiverAt(Updates(es), |es|) == Receiver(|es| % WRAP, s.ended)
  {
    if |es| > 0 {
      AllAccepted(es, acks, |es| - 1);
      Wraps(|es| - 1);
    }
  }

  /** Without a lost acknowledgement the stream of whole envelopes arrives. */
  lemma WholeInOrder(cs: seq<Call>)
    requires forall i :: 0 <= i < |cs| && cs[i].Send? ==> !cs[i].answer.LostAck?
    ensures Arrives(Stream(cs, |cs|), SenderAt(cs, |cs|))
  {
    AllAcked(cs, |cs|);
    StreamNumbered(cs, |cs|);
    AckedArrives(Stream(cs, |cs|), Acks(cs, |cs|), SenderAt(cs, |cs|));
  }

  lemma {:induction false} AllAcked(cs: seq<Call>, n: nat)
    requires n <= |cs| && forall i :: 0 <= i < |cs| && cs[i].Send? ==> !cs[i].answer.LostAck?
    ensures forall i :: 0 <= i < |Acks(cs, n)| ==> Acks(cs, n)[i]
  {
    if n > 0 {
      AllAcked(cs, n - 1);
    }
  }

  // ---------------------------------------------------------------- over the wire

  ghost function AsFrames(marshal: Envelope -> Message, es: seq<Envelope>): (fs: seq<Frame>)
    ensures |fs| == |es| && forall i :: 0 <= i < |es| ==> fs[i] == FrameOf(marshal, es[i])
  {
    seq(|es|, i requires 0 <= i < |es| => FrameOf(marshal, es[i]))
  }

  /** What a reader of these bytes gets: the payload of every whole frame, decoded. */
  ghost function Received(unmarshal: Message -> Incoming, bytes: seq<byte>): (ins: seq<Incoming>)
    ensures |ins| == |DecodeAll(bytes).0|
    ensures forall i :: 0 <= i < |ins| ==> ins[i] == unmarshal(DecodeAll(bytes).0[i].payload)
  {
    var fs := DecodeAll(bytes).0;
    seq(|fs|, i requires 0 <= i < |fs| => unmarshal(fs[i].payload))
  }

  ghost predicate FitsWire(marshal: Envelope -> Message, es: seq<Envelope>) {
    forall i :: 0 <= i < |es| ==> |marshal(es[i])| <= MAX_PAYLOAD
  }

  /** With any message encoding that decodes what it encodes, the bytes of envelopes, whatever
      incomplete tail follows them, are read and decoded as these envelopes again. */
  lemma EnvelopesSurviveFraming(
      marshal: Envelope -> Message, unmarshal: Message -> Incoming, es: seq<Envelope>, tail: seq<byte>)
    requires (forall e :: unmarshal(marshal(e)) == Decoded(e)) && FitsWire(marshal, es) && Decode(tail) == Incomplete
    ensures Fits(AsFrames(marshal, es))
    ensures Received(unmarshal, EncodeAll(AsFrames(marshal, es)) + tail) == Updates(es)
  {
    var fs := AsFrames(marshal, es);
    assert AllWellFormed(fs) && Fits(fs);
    SplitIsUnique(fs, tail, EncodeAll(fs) + tail);
  }

  /** The bytes on the stream after the first n calls. */
  function Wire(marshal: Envelope -> Message, cs: seq<Call>, n: nat): seq<byte>
    requires n <= |cs|
  {
    if n == 0 then [] else Wire(marshal, cs, n - 1) + BytesOut(marshal, SenderAt(cs, n - 1), cs[n - 1])
  }

  /** Call i puts bytes on the stream. */
  predicate WritesAt(cs: seq<Call>, i: nat)
    requires i < |cs|
  {
    !SenderAt(cs, i).ended && cs[i].Send? && !cs[i].answer.Refused?
  }

  predicate CutsAt(cs: seq<Call>, i: nat)
    requires i < |cs|
  {
    WritesAt(cs, i) && cs[i].answer.CutOff?
  }

  /** The answer says what happened: whatever writes has an envelope that fits a frame, and is cut off
      strictly inside it if at all. */
  predicate FaithfulCall(marshal: Envelope -> Message, s: Sender, c: Call) {
    !s.ended && c.Send? && !c.answer.Refused? ==>
      var m := |marshal(Envelope(s.nextSeq, c.end, c.update))|;
      m <= MAX_PAYLOAD && (c.answer.CutOff? ==> 0 < c.answer.taken < HEADER_SIZE + m)
  }

  predicate FaithfulFirst(marshal: Envelope -> Message, cs: seq<Call>, n: nat)
    requires n <= |cs|
  {
    n > 0 ==> FaithfulFirst(marshal, cs, n - 1) && FaithfulCall(marshal, SenderAt(cs, n - 1), cs[n - 1])
  }

  predicate Faithful(marshal: Envelope -> Message, cs: seq<Call>) {
    FaithfulFirst(marshal, cs, |cs|)
  }

  lemma {:induction false} FaithfulAt(marshal: Envelope -> Message, cs: seq<Call>, n: nat, k: nat)
    requires n <= |cs| && FaithfulFirst(marshal, cs, n) && k < n
    ensures FaithfulCall(marshal, SenderAt(cs, k), cs[k])
  {
    if k < n - 1 {
      FaithfulAt(marshal, cs, n - 1, k);
    }
  }

  /** Nothing is written after a send that was cut off. */
  ghost predicate QuietAfterCut(cs: seq<Call>) {
    forall i, j :: 0 <= i < j < |cs| && CutsAt(cs, i) ==> !WritesAt(cs, j)
  }

  predicate CutBefore(cs: seq<Call>, n: nat)
    requires n <= |cs|
  {
    n > 0 && (CutBefore(cs, n - 1) || CutsAt(cs, n - 1))
  }

  /** The first n calls are faithful and quiet after a cut. */
  predicate Orderly(marshal: Envelope -> Message, cs: seq<Call>, n: nat)
    requires n <= |cs|
  {
    n > 0 ==>
      && Orderly(marshal, cs, n - 1) && FaithfulCall(marshal, SenderAt(cs, n - 1), cs[n - 1])
      && (WritesAt(cs, n - 1) ==> !CutBefore(cs, n - 1))
  }

  lemma {:induction false} CutsBefore(cs: seq<Call>, n: nat) returns (i: nat)
    requires n <= |cs| && CutBefore(cs, n)
    ensures i < n && CutsAt(cs, i)
  {
    if CutsAt(cs, n - 1) {
      i := n - 1;
    } else {
      i := CutsBefore(cs, n - 1);
    }
  }

  lemma {:induction false} IsOrderly(marshal: Envelope -> Message, cs: seq<Call>, n: nat)
    requires n <= |cs| && Faithful(marshal, cs) && QuietAfterCut(cs)
    ensures Orderly(marshal, cs, n)
  {
    if n > 0 {
      IsOrderly(marshal, cs, n - 1);
      FaithfulAt(marshal, cs, |cs|, n - 1);
      if WritesAt(cs, n - 1) && CutBefore(cs, n - 1) {
        var i := CutsBefore(cs, n - 1);
      }
    }
  }

  /** The bytes are those of the envelopes es, and then an incomplete tail. */
  ghost predicate Shape(marshal: Envelope -> Message, es: seq<Envelope>, wire: seq<byte>, tail: seq<byte>) {
    && FitsWire(marshal, es) && Fits(AsFrames(marshal, es)) && Decode(tail) == Incomplete
    && wire == EncodeAll(AsFrames(marshal, es)) + tail
  }

  /** The bytes on the stream are those of the whole envelopes, and of one that was cut off if there
      is one. */
  lemma {:induction false} WireShape(marshal: Envelope -> Message, cs: seq<Call>, n: nat) returns (tail: seq<byte>)
    requires n <= |cs| && Orderly(marshal, cs, n)
    ensures Shape(marshal, Stream(cs, n), Wire(marshal, cs, n), tail) && (tail == [] || CutBefore(cs, n))
  {
    if n == 0 {
      tail := [];
      ShapeNone(marshal);
    } else {
      var before := WireShape(marshal, cs, n - 1);
      tail := WireStep(marshal, cs, n, before);
    }
  }

  lemma WireStep(marshal: Envelope -> Message, cs: seq<Call>, n: nat, before: seq<byte>) returns (tail: seq<byte>)
    requires 0 < n <= |cs| && FaithfulCall(marshal, SenderAt(cs, n - 1), cs[n - 1])
    requires Shape(marshal, Stream(cs, n - 1), Wire(marshal, cs, n - 1), before)
    requires WritesAt(cs, n - 1) ==> before == []
    ensures Shape(marshal, Stream(cs, n), Wire(marshal, cs, n), tail)
    ensures tail == [] || CutsAt(cs, n - 1) || tail == before
  {
    var s, c, es, wire := SenderAt(cs, n - 1), cs[n - 1], Stream(cs, n - 1), Wire(marshal, cs, n - 1);
    if WritesAt(cs, n - 1) {
      tail := WireGrows(marshal, es, wire, s, c);
    } else {
      Unwritten(marshal, es, wire, s, c);
      tail := before;
    }
  }

  lemma ShapeNone(marshal: Envelope -> Message)
    ensures Shape(marshal, [], [], [])
  {
    assert AsFrames(marshal, []) == [];
  }

  lemma Unwritten(marshal: Envelope -> Message, es: seq<Envelope>, wire: seq<byte>, s: Sender, c: Call)
    requires s.ended || c.SendNil? || c.answer.Refused?
    ensures es + Output(s, c) == es && wire + BytesOut(marshal, s, c) == wire
  {
  }

  lemma WireGrows(marshal: Envelope -> Message, es: seq<Envelope>, wire: seq<byte>, s: Sender, c: Call)
    returns (tail: seq<byte>)
    requires !s.ended && c.Send? && !c.answer.Refused? && FaithfulCall(marshal, s, c)
    requires Shape(marshal, es, wire, [])
    ensures Shape(marshal, es + Output(s, c), wire + BytesOut(marshal, s, c), tail)
    ensures tail == [] || c.answer.CutOff?
  {
    var f := FrameOf(marshal, Envelope(s.nextSeq, c.end, c.update));
    if c.answer.CutOff? {
      tail := Encode(f)[..c.answer.taken];
      ProperPrefixIncomplete(f, tail);
      assert es + Output(s, c) == es;
    } else {
      tail := [];
      var fs := AsFrames(marshal, es);
      assert AsFrames(marshal, es + Output(s, c)) == fs + [f];
      EncodeAllSnoc(fs, f);
    }
  }

  /** Every envelope that went out whole reaches the receiver and is accepted. */
  ghost predicate Delivered(unmarshal: Message -> Incoming, wire: seq<byte>, es: seq<Envelope>) {
    Received(unmarshal, wire) == Updates(es) && AllTaken(es)
  }

  /** Exactly-once delivery. If nothing is written after a send that was cut off, the receiver gets
      exactly the envelopes that went out whole, and accepts them all, in order, if and only if none of
      them follows one whose send was reported as failed although it went out. */
  lemma DeliveredIff(marshal: Envelope -> Message, unmarshal: Message -> Incoming, cs: seq<Call>)
    requires (forall e :: unmarshal(marshal(e)) == Decoded(e)) && Faithful(marshal, cs) && QuietAfterCut(cs)
    ensures Received(unmarshal, Wire(marshal, cs, |cs|)) == Updates(Stream(cs, |cs|))
    ensures Delivered(unmarshal, Wire(marshal, cs, |cs|), Stream(cs, |cs|)) <==> AckedBeforeLast(Acks(cs, |cs|))
  {
    IsOrderly(marshal, cs, |cs|);
    var tail := WireShape(marshal, cs, |cs|);
    EnvelopesSurviveFraming(marshal, unmarshal, Stream(cs, |cs|), tail);
    WholeDeliveredIff(cs);
  }

  /** Nothing is written after a failed send that wrote at least one byte. */
  ghost predicate QuietAfterFailure(cs: seq<Call>) {
    forall i, j :: 0 <= i < j < |cs| && WritesAt(cs, i) && !cs[i].answer.Sent? ==> !WritesAt(cs, j)
  }

  lemma {:induction false} QuietIsAcked(cs: seq<Call>, n: nat)
    requires n <= |cs| && QuietAfterFailure(cs)
    ensures AckedBeforeLast(Acks(cs, n))
    ensures (forall i :: 0 <= i < n && WritesAt(cs, i) ==> cs[i].answer.Sent?) ==>
      forall i :: 0 <= i < |Acks(cs, n)| ==> Acks(cs, n)[i]
  {
    if n > 0 {
      QuietIsAcked(cs, n - 1);
      if Emits(SenderAt(cs, n - 1), cs[n - 1]) {
        assert WritesAt(cs, n - 1);
        assert forall i :: 0 <= i < n - 1 && WritesAt(cs, i) ==> cs[i].answer.Sent?;
      }
    }
  }

  /** In particular everything that went out whole is delivered when the sender writes nothing more
      after a failed send that wrote at least one byte. */
  lemma DeliveredWhenQuiet(marshal: Envelope -> Message, unmarshal: Message -> Incoming, cs: seq<Call>)
    requires (forall e :: unmarshal(marshal(e)) == Decoded(e)) && Faithful(marshal, cs) && QuietAfterFailure(cs)
    ensures Delivered(unmarshal, Wire(marshal, cs, |cs|), Stream(cs, |cs|))
  {
    QuietIsAcked(cs, |cs|);
    DeliveredIff(marshal, unmarshal, cs);
  }

  /** When every send succeeds or writes nothing, everything sent arrives, numbered from 0, with the end
      flag on the last exactly when the sender has ended. */
  lemma DeliveredInOrder(marshal: Envelope -> Message, unmarshal: Message -> Incoming, cs: seq<Call>)
    requires (forall e :: unmarshal(marshal(e)) == Decoded(e)) && Faithful(marshal, cs)
    requires forall i :: 0 <= i < |cs| && cs[i].Send? ==> cs[i].answer.Sent? || cs[i].answer.Refused?
    ensures Arrives(Stream(cs, |cs|), SenderAt(cs, |cs|))
    ensures Received(unmarshal, Wire(marshal, cs, |cs|)) == Updates(Stream(cs, |cs|))
  {
    WholeInOrder(cs);
    DeliveredIff(marshal, unmarshal, cs);
  }
}
