/** What the receiver makes of an update stream on which the sender goes on after a failed send. */
module UpdateCuts {
  import opened Bytes
  import opened Frames
  import opened Updates

  /** A send reported as failed although it went out, and a retry: the number is used twice, and the
      receiver rejects the second envelope. */
  lemma LostAckRepeats()
    ensures var cs := [Send(false, [1], LostAck), Send(true, [2], Sent)];
      && Stream(cs, 2) == [Envelope(0, false, [1]), Envelope(0, true, [2])]
      && !AcceptedAt(Updates.Updates(Stream(cs, 2)), 1)
  {
    var cs := [Send(false, [1], LostAck), Send(true, [2], Sent)];
    assert SenderAt(cs, 0) == NEW_SENDER && SenderAt(cs, 1) == NEW_SENDER;
    assert Stream(cs, 1) == Stream(cs, 0) + [Envelope(0, false, [1])];
    assert Stream(cs, 2) == Stream(cs, 1) + [Envelope(0, true, [2])];
    var ins := Updates.Updates(Stream(cs, 2));
    assert ReceiverAt(ins, 1) == AfterRead(ReceiverAt(ins, 0), ins[0]);
  }

  // ---------------------------------------------------------------- a frame cut off

  /** A frame cut off inside its payload swallows what is written next: it is read with its full
      length, the missing bytes taken from whatever follows. */
  lemma CutSwallows(f: Frame, taken: nat, next: seq<byte>)
    requires WellFormed(f) && HEADER_SIZE <= taken < |Encode(f)| && |Encode(f)| - taken <= |next|
    ensures var missing := |Encode(f)| - taken;
      Decode(Encode(f)[..taken] + next) ==
      Whole(f.(payload := f.payload[..|f.payload| - missing] + next[..missing]), next[missing..])
  {
    var b, n := Encode(f)[..taken] + next, |f.payload|;
    var missing := |Encode(f)| - taken;
    assert b[..HEADER_SIZE] == Encode(f)[..HEADER_SIZE] == Header(f.frameType, n);
    assert b[1..HEADER_SIZE] == b[..HEADER_SIZE][1..] == PutUint32(n);
    assert b[0] == b[..HEADER_SIZE][0] == f.frameType;
    Uint32OfPut(n);
    assert b[HEADER_SIZE..HEADER_SIZE + n] == f.payload[..n - missing] + next[..missing];
    assert b[HEADER_SIZE + n..] == next[missing..];
  }

  // ---------------------------------------------------------------- an inverse pair of codecs

  function Ones(n: nat): (m: Message)
    ensures |m| == n && forall i :: 0 <= i < n ==> m[i] == 1
  {
    seq(n, _ => 1)
  }

  function LeadingOnes(m: Message): (n: nat)
    ensures n <= |m|
  {
    if m == [] || m[0] != 1 then 0 else 1 + LeadingOnes(m[1..])
  }

  /** The number as that many ones, a zero, the end flag, the update. */
  function Marshal(e: Envelope): Message {
    Ones(e.number) + [0, if e.end then 1 else 0] + e.update
  }

  function Unmarshal(m: Message): Incoming {
    var n := LeadingOnes(m);
    if |m| < n + 2 || m[n] != 0 || m[n + 1] > 1 then Undecodable
    else Decoded(Envelope(n, m[n + 1] == 1, m[n + 2..]))
  }

  lemma {:induction false} LeadingOnesOf(n: nat, rest: Message)
    requires rest != [] && rest[0] != 1
    ensures LeadingOnes(Ones(n) + rest) == n
  {
    if n > 0 {
      assert (Ones(n) + rest)[1..] == Ones(n - 1) + rest;
      LeadingOnesOf(n - 1, rest);
    } else {
      assert Ones(0) + rest == rest;
    }
  }

  lemma MarshalInverts(e: Envelope)
    ensures Unmarshal(Marshal(e)) == Decoded(e)
  {
    var rest := [0, if e.end then 1 else 0] + e.update;
    assert Marshal(e) == Ones(e.number) + rest;
    LeadingOnesOf(e.number, rest);
    assert Marshal(e)[e.number + 2..] == e.update;
  }

  // ---------------------------------------------------------------- a retry misread

  const RETRY: seq<Call> := [Send(false, [9], CutOff(7)), Send(true, [9], Sent)]

  lemma RetryFrames()
    ensures Encode(FrameOf(Marshal, Envelope(0, false, [9]))) == [5, 0, 0, 0, 3, 0, 0, 9]
    ensures Encode(FrameOf(Marshal, Envelope(0, true, [9]))) == [5, 0, 0, 0, 3, 0, 1, 9]
  {
    assert Marshal(Envelope(0, false, [9])) == [0, 0, 9] && Marshal(Envelope(0, true, [9])) == [0, 1, 9];
  }

  lemma RetryCalls()
    ensures SenderAt(RETRY, 0) == NEW_SENDER && SenderAt(RETRY, 1) == NEW_SENDER
    ensures Stream(RETRY, 2) == [Envelope(0, true, [9])]
  {
    assert SenderAt(RETRY, 0) == NEW_SENDER;
    assert Stream(RETRY, 1) == [];
  }

  lemma RetryWire()
    ensures Faithful(Marshal, RETRY)
    ensures Wire(Marshal, RETRY, 2) == [5, 0, 0, 0, 3, 0, 0] + [5, 0, 0, 0, 3, 0, 1, 9]
  {
    RetryCalls();
    RetryFrames();
    assert Wire(Marshal, RETRY, 1) == [5, 0, 0, 0, 3, 0, 0];
  }

  /** A send cut off one byte before its end, and a retry: the receiver accepts an update that nobody
      sent, made of the first byte of the retry's header, and never sees the retry. */
  lemma RetryAfterCutMisread()
    ensures (forall e :: Unmarshal(Marshal(e)) == Decoded(e)) && Faithful(Marshal, RETRY)
    ensures Stream(RETRY, 2) == [Envelope(0, true, [9])]
    ensures var ins := Received(Unmarshal, Wire(Marshal, RETRY, 2));
      ins == [Decoded(Envelope(0, false, [5]))] && AcceptedAt(ins, 0)
  {
    forall e ensures Unmarshal(Marshal(e)) == Decoded(e) { MarshalInverts(e); }
    RetryCalls();
    RetryWire();
    MisreadAs();
  }

  lemma MisreadAs()
    ensures Received(Unmarshal, [5, 0, 0, 0, 3, 0, 0] + [5, 0, 0, 0, 3, 0, 1, 9]) == [Decoded(Envelope(0, false, [5]))]
  {
    MisreadBytes();
    assert Unmarshal([0, 0, 5]) == Decoded(Envelope(0, false, [5]));
  }

  lemma MisreadBytes()
    ensures DecodeAll([5, 0, 0, 0, 3, 0, 0] + [5, 0, 0, 0, 3, 0, 1, 9]).0 == [Frame(5, 3, [0, 0, 5])]
  {
    var b: seq<byte> := [5, 0, 0, 0, 3, 0, 0] + [5, 0, 0, 0, 3, 0, 1, 9];
    var rest: seq<byte> := [0, 0, 0, 3, 0, 1, 9];
    assert b[1..5] == [0, 0, 0, 3] && b[5..8] == [0, 0, 5] && b[8..] == rest;
    assert Decode(b) == Whole(Frame(5, 3, [0, 0, 5]), rest);
    assert rest[1..5] == [0, 0, 3, 0];
    assert Uint32([0, 0, 3, 0]) == 768;
    assert DecodeAll(rest) == ([], rest);
    DecodeAllStep(b);
  }

  // ---------------------------------------------------------------- whoever writes after a cut

  /** The receiver reads exactly the frames of the envelopes that went out whole. */
  ghost predicate FramesArrive(marshal: Envelope -> Message, cs: seq<Call>) {
    DecodeAll(Wire(marshal, cs, |cs|)).0 == AsFrames(marshal, Stream(cs, |cs|))
  }

  /** The encoding gives every envelope a message of the given length. */
  ghost predicate OfLengths(marshal: Envelope -> Message, len: Envelope -> nat) {
    forall e :: |marshal(e)| == len(e)
  }

  /** Whatever the bytes of the messages are, as long as their lengths are these. */
  ghost predicate AlwaysArrive(len: Envelope -> nat, cs: seq<Call>) {
    forall marshal :: OfLengths(marshal, len) ==> FramesArrive(marshal, cs)
  }

  /** The answers are faithful for messages of these lengths. */
  ghost predicate FaithfulLengths(len: Envelope -> nat, cs: seq<Call>) {
    Faithful(Fill(len, 0), cs)
  }

  /** Whoever goes on after a cut gets some later envelope out whole. */
  ghost predicate GetsThrough(cs: seq<Call>) {
    forall i, j :: 0 <= i < j < |cs| && CutsAt(cs, i) && WritesAt(cs, j) ==>
      exists k :: i < k < |cs| && EmitsAt(cs, k)
  }

  predicate EmitsAt(cs: seq<Call>, k: nat)
    requires k < |cs|
  {
    Emits(SenderAt(cs, k), cs[k])
  }

  /** Messages of the given lengths, all of one byte. */
  function Fill(len: Envelope -> nat, d: byte): (marshal: Envelope -> Message)
    ensures forall e :: |marshal(e)| == len(e) && forall i :: 0 <= i < len(e) ==> marshal(e)[i] == d
  {
    e => seq(len(e), _ => d)
  }

  // ---------------------------------------------------------------- the bytes from a call on

  /** The bytes that calls k, ..., |cs| - 1 put on the stream. */
  function Pieces(marshal: Envelope -> Message, cs: seq<Call>, k: nat): seq<byte>
    requires k <= |cs|
    decreases |cs| - k
  {
    if k == |cs| then [] else BytesOut(marshal, SenderAt(cs, k), cs[k]) + Pieces(marshal, cs, k + 1)
  }

  lemma {:induction false} WireSplit(marshal: Envelope -> Message, cs: seq<Call>, k: nat)
    requires k <= |cs|
    ensures Wire(marshal, cs, |cs|) == Wire(marshal, cs, k) + Pieces(marshal, cs, k)
    decreases |cs| - k
  {
    if k < |cs| {
      WireSplit(marshal, cs, k + 1);
      Assoc(Wire(marshal, cs, k), BytesOut(marshal, SenderAt(cs, k), cs[k]), Pieces(marshal, cs, k + 1));
    }
  }

  /** Strings of one length with the same first five bytes. */
  ghost predicate SameStart(a: seq<byte>, b: seq<byte>) {
    |a| == |b| && forall q :: 0 <= q < |a| && q < HEADER_SIZE ==> a[q] == b[q]
  }

  lemma PieceStart(m: Envelope -> Message, m': Envelope -> Message, s: Sender, c: Call)
    requires c.Send? ==> |m(Envelope(s.nextSeq, c.end, c.update))| == |m'(Envelope(s.nextSeq, c.end, c.update))|
    ensures SameStart(BytesOut(m, s, c), BytesOut(m', s, c))
  {
  }

  lemma JoinStart(a: seq<byte>, a': seq<byte>, b: seq<byte>, b': seq<byte>)
    requires SameStart(a, a') && SameStart(b, b')
    ensures SameStart(a + b, a' + b')
  {
  }

  /** Where the bytes begin does not depend on what the messages say, only on their lengths. */
  lemma {:induction false} PiecesStart(m: Envelope -> Message, m': Envelope -> Message, len: Envelope -> nat,
                                       cs: seq<Call>, k: nat)
    requires k <= |cs| && OfLengths(m, len) && OfLengths(m', len)
    ensures SameStart(Pieces(m, cs, k), Pieces(m', cs, k))
    decreases |cs| - k
  {
    if k < |cs| {
      PiecesStart(m, m', len, cs, k + 1);
      PieceStart(m, m', SenderAt(cs, k), cs[k]);
      JoinStart(BytesOut(m, SenderAt(cs, k), cs[k]), BytesOut(m', SenderAt(cs, k), cs[k]),
                Pieces(m, cs, k + 1), Pieces(m', cs, k + 1));
    }
  }

  lemma {:induction false} PiecesBegin(m: Envelope -> Message, cs: seq<Call>, k: nat)
    requires k <= |cs|
    ensures Pieces(m, cs, k) != [] ==> Pieces(m, cs, k)[0] == DATA_FRAME
    decreases |cs| - k
  {
    if k < |cs| {
      PiecesBegin(m, cs, k + 1);
      PieceBegins(m, SenderAt(cs, k), cs[k]);
    }
  }

  lemma PieceBegins(m: Envelope -> Message, s: Sender, c: Call)
    ensures BytesOut(m, s, c) != [] ==> BytesOut(m, s, c)[0] == DATA_FRAME
  {
  }

  lemma {:induction false} PiecesWritten(marshal: Envelope -> Message, cs: seq<Call>, k: nat, j: nat)
    requires Faithful(marshal, cs) && k <= j < |cs| && WritesAt(cs, j)
    ensures Pieces(marshal, cs, k) != []
    decreases j - k
  {
    if k < j {
      PiecesWritten(marshal, cs, k + 1, j);
    } else {
      FaithfulAt(marshal, cs, |cs|, j);
      PieceWritten(marshal, SenderAt(cs, j), cs[j]);
    }
  }

  lemma PieceWritten(m: Envelope -> Message, s: Sender, c: Call)
    requires FaithfulCall(m, s, c) && !s.ended && c.Send? && !c.answer.Refused?
    ensures BytesOut(m, s, c) != []
  {
  }

  // ---------------------------------------------------------------- the first frame after a cut

  /** If a cut frame and what follows it are read as a frame, the first byte of what follows is in its
      payload, or its payload begins with the sixth byte. */
  lemma ReadAfterCut(f: Frame, taken: nat, next: seq<byte>)
    requires WellFormed(f) && 0 < taken < |Encode(f)| && next != [] && next[0] > 0
    requires Decode(Encode(f)[..taken] + next).Whole?
    ensures var payload := Decode(Encode(f)[..taken] + next).frame.payload;
      if taken >= HEADER_SIZE then taken - HEADER_SIZE < |payload| && payload[taken - HEADER_SIZE] == next[0]
      else payload != [] && HEADER_SIZE - taken < |next| && payload[0] == next[HEADER_SIZE - taken]
  {
    var b := Encode(f)[..taken] + next;
    var n := Uint32(b[1..HEADER_SIZE]);
    assert b[taken] == next[0];
    if taken >= HEADER_SIZE {
      assert b[..HEADER_SIZE] == Encode(f)[..HEADER_SIZE] == Header(f.frameType, |f.payload|);
      assert b[1..HEADER_SIZE] == b[..HEADER_SIZE][1..] == PutUint32(|f.payload|);
      Uint32OfPut(|f.payload|);
      assert b[HEADER_SIZE..HEADER_SIZE + n][taken - HEADER_SIZE] == b[taken];
    } else {
      assert b[1..HEADER_SIZE][taken - 1] == next[0];
      Uint32Positive(b[1..HEADER_SIZE], taken - 1);
      assert b[HEADER_SIZE..HEADER_SIZE + n][0] == b[HEADER_SIZE];
    }
  }

  lemma Uint32Positive(b: seq<byte>, i: nat)
    requires |b| == 4 && i < 4 && b[i] > 0
    ensures Uint32(b) > 0
  {
  }

  /** Whole frames in front do not change how the rest is read. */
  lemma {:induction false} DecodeAllAppend(fs: seq<Frame>, rest: seq<byte>)
    requires Fits(fs) && AllWellFormed(fs)
    ensures DecodeAll(EncodeAll(fs) + rest).0 == fs + DecodeAll(rest).0
    decreases |fs|
  {
    if fs == [] {
      assert EncodeAll(fs) + rest == rest;
    } else {
      DecodeAllAppend(fs[1..], rest);
      var more := EncodeAll(fs[1..]) + rest;
      Assoc(Encode(fs[0]), EncodeAll(fs[1..]), rest);
      DecodeOfEncode(fs[0], more);
      DecodeAllStep(Encode(fs[0]) + more);
      FrontAssoc(fs, DecodeAll(rest).0);
    }
  }

  lemma FrontAssoc(fs: seq<Frame>, gs: seq<Frame>)
    requires fs != []
    ensures [fs[0]] + (fs[1..] + gs) == fs + gs
  {
  }

  // ---------------------------------------------------------------- from one cut to the whole stream

  lemma {:induction false} StreamGrows(cs: seq<Call>, a: nat, b: nat)
    requires a <= b <= |cs|
    ensures Stream(cs, a) <= Stream(cs, b)
    ensures (exists k :: a <= k < b && EmitsAt(cs, k)) ==> |Stream(cs, a)| < |Stream(cs, b)|
  {
    if a < b {
      StreamGrows(cs, a, b - 1);
    }
  }

  lemma {:induction false} FirstCut(cs: seq<Call>, n: nat) returns (i: nat)
    requires n <= |cs| && CutBefore(cs, n)
    ensures i < n && CutsAt(cs, i) && !CutBefore(cs, i)
  {
    if CutBefore(cs, n - 1) {
      i := FirstCut(cs, n - 1);
    } else {
      i := n - 1;
    }
  }

  lemma {:induction false} CutIsBefore(cs: seq<Call>, i: nat, n: nat)
    requires i < n <= |cs| && CutsAt(cs, i)
    ensures CutBefore(cs, n)
  {
    if i < n - 1 {
      CutIsBefore(cs, i, n - 1);
    }
  }

  lemma {:induction false} OrderlyBefore(marshal: Envelope -> Message, cs: seq<Call>, n: nat)
    requires n <= |cs| && FaithfulFirst(marshal, cs, n) && !CutBefore(cs, n)
    ensures Orderly(marshal, cs, n)
  {
    if n > 0 {
      OrderlyBefore(marshal, cs, n - 1);
    }
  }

  lemma {:induction false} FaithfulUpTo(marshal: Envelope -> Message, cs: seq<Call>, n: nat, k: nat)
    requires k <= n <= |cs| && FaithfulFirst(marshal, cs, n)
    ensures FaithfulFirst(marshal, cs, k)
  {
    if k < n {
      FaithfulUpTo(marshal, cs, n - 1, k);
    }
  }

  lemma {:induction false} SameFaithful(len: Envelope -> nat, marshal: Envelope -> Message, cs: seq<Call>, n: nat)
    requires n <= |cs| && FaithfulFirst(Fill(len, 0), cs, n) && OfLengths(marshal, len)
    ensures FaithfulFirst(marshal, cs, n)
  {
    if n > 0 {
      SameFaithful(len, marshal, cs, n - 1);
      SameLength(len, marshal, SenderAt(cs, n - 1), cs[n - 1]);
    }
  }

  lemma SameLength(len: Envelope -> nat, marshal: Envelope -> Message, s: Sender, c: Call)
    requires FaithfulCall(Fill(len, 0), s, c) && OfLengths(marshal, len)
    ensures FaithfulCall(marshal, s, c)
  {
    if c.Send? {
      var e := Envelope(s.nextSeq, c.end, c.update);
      assert |marshal(e)| == len(e) == |Fill(len, 0)(e)|;
    }
  }

  /** From call i on, the bytes begin with the frame of some envelope. */
  ghost predicate ReadsOn(marshal: Envelope -> Message, cs: seq<Call>, i: nat)
    requires i <= |cs|
  {
    exists e :: ReadsAs(marshal, Pieces(marshal, cs, i), e)
  }

  ghost predicate ReadsAs(marshal: Envelope -> Message, b: seq<byte>, e: Envelope) {
    Decode(b).Whole? && Decode(b).frame == FrameOf(marshal, e)
  }

  /** What a reader makes of the bytes from the first cut on, when everything arrives. */
  lemma ArrivesReadsOn(marshal: Envelope -> Message, cs: seq<Call>, i: nat, k: nat)
    requires Faithful(marshal, cs) && FramesArrive(marshal, cs)
    requires i < k < |cs| && CutsAt(cs, i) && !CutBefore(cs, i) && EmitsAt(cs, k)
    ensures ReadsOn(marshal, cs, i)
  {
    var es, all := Stream(cs, i), Stream(cs, |cs|);
    FaithfulUpTo(marshal, cs, |cs|, i);
    OrderlyBefore(marshal, cs, i);
    var tail := WireShape(marshal, cs, i);
    StreamGrows(cs, i, |cs|);
    WireSplit(marshal, cs, i);
    ReadsPast(marshal, es, all, Pieces(marshal, cs, i));
    assert ReadsAs(marshal, Pieces(marshal, cs, i), all[|es|]);
  }

  lemma ReadsPast(marshal: Envelope -> Message, es: seq<Envelope>, all: seq<Envelope>, rest: seq<byte>)
    requires FitsWire(marshal, es) && Fits(AsFrames(marshal, es)) && es <= all && |es| < |all|
    requires DecodeAll(EncodeAll(AsFrames(marshal, es)) + [] + rest).0 == AsFrames(marshal, all)
    ensures ReadsAs(marshal, rest, all[|es|])
  {
    var fs := AsFrames(marshal, es);
    assert EncodeAll(fs) + [] == EncodeAll(fs);
    DecodeAllAppend(fs, rest);
    assert AsFrames(marshal, all)[|es|] == FrameOf(marshal, all[|es|]);
    assert (fs + DecodeAll(rest).0)[|es|] == DecodeAll(rest).0[0];
  }

  /** Every byte of every message is d. */
  ghost predicate Filled(marshal: Envelope -> Message, d: byte) {
    forall e :: AllBytes(marshal(e), d)
  }

  predicate AllBytes(m: Message, d: byte) {
    forall q :: 0 <= q < |m| ==> m[q] == d
  }

  /** The cut was inside the header, and the sixth byte from its start is d. */
  predicate Sixth(taken: nat, next: seq<byte>, d: byte) {
    0 < taken < HEADER_SIZE && HEADER_SIZE - taken < |next| && next[HEADER_SIZE - taken] == d
  }

  /** Two encodings of the same lengths, filled with different bytes, cannot both be read on from a cut
      after which somebody writes. */
  lemma NotBothReadOn(len: Envelope -> nat, m: Envelope -> Message, m': Envelope -> Message, cs: seq<Call>,
                      i: nat, k: nat)
    requires OfLengths(m, len) && OfLengths(m', len) && Filled(m, 6) && Filled(m', 7)
    requires Faithful(m, cs) && Faithful(m', cs) && i < k < |cs| && CutsAt(cs, i) && WritesAt(cs, k)
    ensures !(ReadsOn(m, cs, i) && ReadsOn(m', cs, i))
  {
    PiecesStart(m, m', len, cs, i + 1);
    SixthIfReadOn(m, 6, cs, i, k);
    SixthIfReadOn(m', 7, cs, i, k);
    NotBothSixth(cs[i].answer.taken, Pieces(m, cs, i + 1), Pieces(m', cs, i + 1));
  }

  lemma NotBothSixth(taken: nat, next: seq<byte>, next': seq<byte>)
    requires SameStart(next, next')
    ensures !(Sixth(taken, next, 6) && Sixth(taken, next', 7))
  {
  }

  lemma SixthIfReadOn(m: Envelope -> Message, d: byte, cs: seq<Call>, i: nat, k: nat)
    requires Faithful(m, cs) && i < k < |cs| && CutsAt(cs, i) && WritesAt(cs, k)
    requires Filled(m, d) && d != DATA_FRAME
    ensures ReadsOn(m, cs, i) ==> Sixth(cs[i].answer.taken, Pieces(m, cs, i + 1), d)
  {
    if ReadsOn(m, cs, i) {
      var e :| ReadsAs(m, Pieces(m, cs, i), e);
      ReadPiece(m, d, cs, i, k, e);
    }
  }

  lemma ReadPiece(m: Envelope -> Message, d: byte, cs: seq<Call>, i: nat, k: nat, e: Envelope)
    requires Faithful(m, cs) && i < k < |cs| && CutsAt(cs, i) && WritesAt(cs, k)
    requires Filled(m, d) && d != DATA_FRAME && ReadsAs(m, Pieces(m, cs, i), e)
    ensures Sixth(cs[i].answer.taken, Pieces(m, cs, i + 1), d)
  {
    CutAndOn(m, cs, i, k);
    FilledPiece(m, d, SenderAt(cs, i), cs[i], Pieces(m, cs, i), Pieces(m, cs, i + 1), e);
  }

  lemma CutAndOn(m: Envelope -> Message, cs: seq<Call>, i: nat, k: nat)
    requires Faithful(m, cs) && i < k < |cs| && CutsAt(cs, i) && WritesAt(cs, k)
    ensures Pieces(m, cs, i + 1) != [] && Pieces(m, cs, i + 1)[0] == DATA_FRAME
    ensures Pieces(m, cs, i) == BytesOut(m, SenderAt(cs, i), cs[i]) + Pieces(m, cs, i + 1)
    ensures FaithfulCall(m, SenderAt(cs, i), cs[i])
  {
    PiecesStarted(m, cs, i + 1, k);
    FaithfulAt(m, cs, |cs|, i);
  }

  lemma PiecesStarted(m: Envelope -> Message, cs: seq<Call>, k: nat, j: nat)
    requires Faithful(m, cs) && k <= j < |cs| && WritesAt(cs, j)
    ensures Pieces(m, cs, k) != [] && Pieces(m, cs, k)[0] == DATA_FRAME
  {
    PiecesWritten(m, cs, k, j);
    PiecesBegin(m, cs, k);
  }

  lemma FilledPiece(m: Envelope -> Message, d: byte, s: Sender, c: Call, all: seq<byte>, next: seq<byte>, e: Envelope)
    requires FaithfulCall(m, s, c) && !s.ended && c.Send? && c.answer.CutOff?
    requires next != [] && next[0] == DATA_FRAME != d && Filled(m, d)
    requires all == BytesOut(m, s, c) + next && ReadsAs(m, all, e)
    ensures Sixth(c.answer.taken, next, d)
  {
    assert AllBytes(m(e), d);
    CutPiece(m, s, c, next, e);
  }

  /** The sixth byte, seen from the frame that is read. */
  lemma CutPiece(m: Envelope -> Message, s: Sender, c: Call, next: seq<byte>, e: Envelope)
    requires FaithfulCall(m, s, c) && !s.ended && c.Send? && c.answer.CutOff?
    requires next != [] && next[0] == DATA_FRAME && forall q :: 0 <= q < |m(e)| ==> m(e)[q] != DATA_FRAME
    requires ReadsAs(m, BytesOut(m, s, c) + next, e)
    ensures m(e) != [] && Sixth(c.answer.taken, next, m(e)[0])
  {
    ReadAfterCut(FrameOf(m, Envelope(s.nextSeq, c.end, c.update)), c.answer.taken, next);
  }

  /** The frames arrive whatever the messages say if and only if nothing is written after a send that
      was cut off, provided that whoever goes on after a cut gets some later envelope out whole. */
  lemma AlwaysArriveIff(len: Envelope -> nat, cs: seq<Call>)
    requires FaithfulLengths(len, cs) && GetsThrough(cs)
    ensures AlwaysArrive(len, cs) <==> QuietAfterCut(cs)
  {
    if QuietAfterCut(cs) {
      forall marshal | OfLengths(marshal, len) ensures FramesArrive(marshal, cs) {
        SameFaithful(len, marshal, cs, |cs|);
        QuietArrives(marshal, cs);
      }
    } else {
      var i, j :| 0 <= i < j < |cs| && CutsAt(cs, i) && WritesAt(cs, j);
      CutIsBefore(cs, i, j);
      var first := FirstCut(cs, j);
      var k :| first < k < |cs| && EmitsAt(cs, k);
      var m, m' := Fill(len, 6), Fill(len, 7);
      assert OfLengths(m, len) && OfLengths(m', len) && Filled(m, 6) && Filled(m', 7);
      SameFaithful(len, m, cs, |cs|);
      SameFaithful(len, m', cs, |cs|);
      NotBothReadOn(len, m, m', cs, first, k);
      if AlwaysArrive(len, cs) {
        ArrivesReadsOn(m, cs, first, k);
        ArrivesReadsOn(m', cs, first, k);
      }
    }
  }

  lemma QuietArrives(marshal: Envelope -> Message, cs: seq<Call>)
    requires Faithful(marshal, cs) && QuietAfterCut(cs)
    ensures FramesArrive(marshal, cs)
  {
    IsOrderly(marshal, cs, |cs|);
    var tail := WireShape(marshal, cs, |cs|);
    var fs := AsFrames(marshal, Stream(cs, |cs|));
    assert AllWellFormed(fs);
    SplitIsUnique(fs, tail, Wire(marshal, cs, |cs|));
  }
}
