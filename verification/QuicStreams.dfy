/** The stream object of server/transport/stream.go over a transport that may accept any part of
    a write and may fail at any point. */
module QuicStreams {
  import opened Numbers
  import opened Bytes
  import opened Frames

  /** How the transport answers one Write: at most `accept` bytes, and an error or none. */
  datatype WriteAnswer = WriteAnswer(accept: nat, err: bool)

  datatype WriteError = NoError | TransportError | ShortWrite | FrameTooLarge | ReaderError

  /** An answer that lets a write loop go on. */
  predicate Fine(a: WriteAnswer) {
    !a.err && a.accept > 0
  }

  /** What an answer that is not fine makes of a write loop. */
  function Stopped(a: WriteAnswer): WriteError {
    if a.err then TransportError else ShortWrite
  }

  /** Writing used up the answers from `before` down to `after`: all fine, except that the last one
      may have stopped it, and then `err` says how. */
  ghost predicate Answered(before: seq<WriteAnswer>, after: seq<WriteAnswer>, err: WriteError) {
    if before == after then err == NoError
    else if before == [] then false
    else if Fine(before[0]) then Answered(before[1..], after, err)
    else after == before[1..] && err == Stopped(before[0])
  }

  lemma {:induction false} AnsweredOn(a: seq<WriteAnswer>, b: seq<WriteAnswer>, c: seq<WriteAnswer>, err: WriteError)
    requires Answered(a, b, NoError) && Answered(b, c, err)
    ensures Answered(a, c, err)
  {
    if a != b {
      AnsweredOn(a[1..], b, c, err);
      AnsweredShrinks(b, c, err);
      AnsweredShrinks(a[1..], b, NoError);
    }
  }

  lemma {:induction false} AnsweredShrinks(a: seq<WriteAnswer>, b: seq<WriteAnswer>, err: WriteError)
    requires Answered(a, b, err)
    ensures |b| <= |a|
  {
    if a != b && Fine(a[0]) {
      AnsweredShrinks(a[1..], b, err);
    }
  }

  /** What a write loop comes to: the bytes taken, how it ended, and the answers left. */
  datatype Written = Written(count: nat, err: WriteError, rest: seq<WriteAnswer>)

  /** The write loop on a piece of `len` bytes. */
  function Loop(answers: seq<WriteAnswer>, len: nat): (w: Written)
    ensures w.count <= len && (w.err.NoError? ==> w.count == len)
  {
    if len == 0 then Written(0, NoError, answers)
    else if answers == [] then Written(len, NoError, [])
    else
      var n := Min(answers[0].accept, len);
      if !Fine(answers[0]) then Written(n, Stopped(answers[0]), answers[1..])
      else
        var w := Loop(answers[1..], len - n);
        Written(n + w.count, w.err, w.rest)
  }

  /** Bytes that k answers offer to take. */
  function Offered(answers: seq<WriteAnswer>, k: nat): nat
    requires k <= |answers|
  {
    if k == 0 then 0 else answers[0].accept + Offered(answers[1..], k - 1)
  }

  /** How the loop ends, judged from the first answer it cannot go on after: with everything taken, with
      the transport's error, or with a short write at an answer that takes nothing. */
  lemma {:induction false} LoopEnds(answers: seq<WriteAnswer>, len: nat, k: nat)
    requires k <= |answers| && Offered(answers, k) < len
    requires forall i :: 0 <= i < k ==> !answers[i].err && answers[i].accept > 0
    ensures k == |answers| ==> Loop(answers, len) == Written(len, NoError, [])
    ensures k < |answers| ==>
      var taken, rest := Min(Offered(answers, k) + answers[k].accept, len), answers[k + 1..];
      && (answers[k].err ==> Loop(answers, len) == Written(taken, TransportError, rest))
      && (!answers[k].err && answers[k].accept == 0 ==> Loop(answers, len) == Written(taken, ShortWrite, rest))
      && (!answers[k].err && taken == len ==> Loop(answers, len) == Written(len, NoError, rest))
  {
    if k > 0 {
      OfferedLess(answers, k);
      LoopEnds(answers[1..], len - answers[0].accept, k - 1);
    } else if |answers| > 0 {
      assert Loop(answers[1..], 0) == Written(0, NoError, answers[1..]);
    }
  }

  lemma OfferedLess(answers: seq<WriteAnswer>, k: nat)
    requires 0 < k <= |answers|
    ensures Offered(answers, k) == answers[0].accept + Offered(answers[1..], k - 1)
    ensures k < |answers| ==> answers[1..][k..] == answers[k + 1..]
  {
  }

  /** A loop that had already written `count` bytes. */
  function After(count: nat, w: Written): Written {
    Written(count + w.count, w.err, w.rest)
  }

  lemma TakeMore(before: seq<byte>, p: seq<byte>, written: nat, n: nat)
    requires written + n <= |p|
    ensures (before + p[..written]) + p[written..][..n] == before + p[..written + n]
  {
  }

  /** What one write that takes n bytes makes of a loop on `size` bytes. */
  lemma LoopStep(size: nat, written: nat, answers: seq<WriteAnswer>, n: nat)
    requires written < size && n == if answers == [] then size - written else Min(answers[0].accept, size - written)
    ensures var w, later := After(written, Loop(answers, size - written)), Later(answers);
      if Fails(answers) then w == Written(written + n, TransportError, later)
      else if n == 0 then w == Written(written + n, ShortWrite, later)
      else w == After(written + n, Loop(later, size - (written + n)))
  {
  }

  lemma {:induction false} LoopAnswered(answers: seq<WriteAnswer>, len: nat)
    ensures var w := Loop(answers, len);
      Answered(answers, w.rest, w.err) && (w.err.NoError? || w.err.TransportError? || w.err.ShortWrite?)
  {
    if len > 0 && answers != [] && Fine(answers[0]) {
      LoopAnswered(answers[1..], len - Min(answers[0].accept, len));
      var w := Loop(answers[1..], len - Min(answers[0].accept, len));
      AnsweredShrinks(answers[1..], w.rest, w.err);
    }
  }

  /** Bytes of a header that the first of the answers takes. */
  function HeaderTaken(answers: seq<WriteAnswer>): nat {
    if answers == [] then HEADER_SIZE else Min(answers[0].accept, HEADER_SIZE)
  }

  /** The first of the answers reports an error. */
  predicate Fails(answers: seq<WriteAnswer>) {
    answers != [] && answers[0].err
  }

  /** The answers after the first. */
  function Later(answers: seq<WriteAnswer>): seq<WriteAnswer> {
    if answers == [] then [] else answers[1..]
  }

  /** Bytes of a payload of `len` bytes that are taken after its header. */
  function PayloadTaken(answers: seq<WriteAnswer>, len: nat): (n: nat)
    ensures n <= len
  {
    if Fails(answers) then 0 else Loop(Later(answers), len).count
  }

  /** What WriteFrame puts on the stream. */
  function SentOf(answers: seq<WriteAnswer>, f: Frame): seq<byte>
    requires |f.payload| <= MAX_PAYLOAD
  {
    Header(f.frameType, |f.payload|)[..HeaderTaken(answers)] + f.payload[..PayloadTaken(answers, |f.payload|)]
  }

  /** What is sent is a prefix of the frame's encoding, for every payload of that length, if and only if
      the header is taken whole, or nothing is taken after it. */
  lemma PrefixIff(answers: seq<WriteAnswer>, frameType: byte, len: nat)
    requires len <= MAX_PAYLOAD
    ensures (forall f: Frame :: f.frameType == frameType && |f.payload| == len ==> SentOf(answers, f) <= Encode(f))
            <==> HeaderTaken(answers) == HEADER_SIZE || PayloadTaken(answers, len) == 0
  {
    var h, w := HeaderTaken(answers), PayloadTaken(answers, len);
    var header := Header(frameType, len);
    if h < HEADER_SIZE && w > 0 {
      var c: byte := if header[h] == 0 then 1 else 0;
      var f := Frame(frameType, len, seq(len, _ => c));
      assert SentOf(answers, f)[h] == c && Encode(f)[h] == header[h];
    } else {
      forall f: Frame | f.frameType == frameType && |f.payload| == len ensures SentOf(answers, f) <= Encode(f) {
        assert h == HEADER_SIZE ==> header[..h] == header;
        assert SentOf(answers, f) == Encode(f)[..h + w];
      }
    }
  }

  lemma SentLength(answers: seq<WriteAnswer>, f: Frame)
    requires |f.payload| <= MAX_PAYLOAD
    ensures |SentOf(answers, f)| == HeaderTaken(answers) + PayloadTaken(answers, |f.payload|)
    ensures |SentOf(answers, f)| <= |Encode(f)|
  {
  }

  /** A failed write need not leave a prefix: four header bytes are taken without an error, then one
      payload byte with one. */
  lemma FailureNeedNotLeavePrefix()
    ensures var answers, f := [WriteAnswer(4, false), WriteAnswer(1, true)], Frame(5, 2, [1, 7]);
      && Loop(Later(answers), 2).err.TransportError?
      && SentOf(answers, f) == [5, 0, 0, 0, 1] && !(SentOf(answers, f) <= Encode(f))
  {
    var answers, f := [WriteAnswer(4, false), WriteAnswer(1, true)], Frame(5, 2, [1, 7]);
    assert Later(answers) == [WriteAnswer(1, true)];
    assert Loop([WriteAnswer(1, true)], 2) == Written(1, TransportError, []);
    assert SentOf(answers, f)[4] == 1 && Encode(f)[4] == 2;
  }

  /** The transport takes each header of fs whole and none of the answers in between stops a payload. */
  ghost predicate Willing(answers: seq<WriteAnswer>, fs: seq<Frame>)
    decreases |fs|
  {
    fs == [] ||
      var w := Loop(Later(answers), |fs[0].payload|);
      && HeaderTaken(answers) == HEADER_SIZE && !Fails(answers)
      && w.err.NoError? && Willing(w.rest, fs[1..])
  }

  /** How WriteFrame ends, and the answers it leaves. */
  function AfterFrame(answers: seq<WriteAnswer>, f: Frame): Written {
    if Fails(answers) then Written(0, TransportError, answers[1..])
    else Loop(Later(answers), |f.payload|)
  }

  /** What WriteFrames puts on the stream, and how it ends. */
  ghost function Sending(answers: seq<WriteAnswer>, fs: seq<Frame>): (seq<byte>, WriteError)
    requires Fits(fs)
    decreases |fs|
  {
    if fs == [] then ([], NoError)
    else
      var w := AfterFrame(answers, fs[0]);
      if !w.err.NoError? then (SentOf(answers, fs[0]), w.err)
      else var (bytes, err) := Sending(w.rest, fs[1..]); (SentOf(answers, fs[0]) + bytes, err)
  }

  lemma {:induction false} SendingLength(answers: seq<WriteAnswer>, fs: seq<Frame>)
    requires Fits(fs)
    ensures |Sending(answers, fs).0| <= |EncodeAll(fs)|
    decreases |fs|
  {
    if fs != [] {
      SentLength(answers, fs[0]);
      SendingLength(AfterFrame(answers, fs[0]).rest, fs[1..]);
    }
  }

  /** All frames go out intact, with no error, if and only if the transport is willing, whatever short
      payload writes that takes. */
  lemma {:induction false} WillingIff(answers: seq<WriteAnswer>, fs: seq<Frame>)
    requires Fits(fs)
    ensures Sending(answers, fs) == (EncodeAll(fs), NoError) <==> Willing(answers, fs)
    decreases |fs|
  {
    if fs != [] {
      var f, w := fs[0], AfterFrame(answers, fs[0]);
      if w.err.NoError? {
        var rest := Sending(w.rest, fs[1..]);
        WillingIff(w.rest, fs[1..]);
        SendingLength(w.rest, fs[1..]);
        SentWhole(answers, f);
        if SentOf(answers, f) + rest.0 == Encode(f) + EncodeAll(fs[1..]) {
          SplitEqual(SentOf(answers, f), rest.0, Encode(f), EncodeAll(fs[1..]));
        }
      }
    }
  }

  lemma SentWhole(answers: seq<WriteAnswer>, f: Frame)
    requires |f.payload| <= MAX_PAYLOAD && AfterFrame(answers, f).err.NoError?
    ensures |SentOf(answers, f)| <= |Encode(f)|
    ensures SentOf(answers, f) == Encode(f) <==> HeaderTaken(answers) == HEADER_SIZE
  {
    SentLength(answers, f);
    assert f.payload[..|f.payload|] == f.payload;
    assert Header(f.frameType, |f.payload|)[..HEADER_SIZE] == Header(f.frameType, |f.payload|);
  }

  lemma SplitEqual(a: seq<byte>, b: seq<byte>, a': seq<byte>, b': seq<byte>)
    requires a + b == a' + b' && |a| <= |a'| && |b| <= |b'|
    ensures a == a' && b == b'
  {
    assert |a + b| == |a' + b'|;
    assert a == (a + b)[..|a|] && b == (a + b)[|a|..];
  }

  datatype ReadResult = Ok(frame: Frame) | EOF | UnexpectedEOF

  datatype ReadErr = NoErr | AtEOF | Broken

  /** One answer of the reader given to WriteFrom. */
  datatype Chunk = Chunk(data: seq<byte>, err: ReadErr)

  /** Everything a reader delivers up to its end. A reader with nothing left reports EOF. */
  function Readable(cs: seq<Chunk>): seq<byte> {
    if cs == [] then []
    else if cs[0].err.NoErr? then cs[0].data + Readable(cs[1..])
    else cs[0].data
  }

  function EndOf(cs: seq<Chunk>): ReadErr {
    if cs == [] then AtEOF else if cs[0].err.NoErr? then EndOf(cs[1..]) else cs[0].err
  }

  function Size(cs: seq<Chunk>): nat {
    if cs == [] then 0 else |cs[0].data| + 1 + Size(cs[1..])
  }

  class Reader {
    var chunks: seq<Chunk>

    constructor (chunks: seq<Chunk>)
      ensures this.chunks == chunks
    {
      this.chunks := chunks;
    }

    /** io.Reader.Read into a buffer of `max` bytes; what does not fit waits for the next call. */
    method Read(max: nat) returns (data: seq<byte>, err: ReadErr)
      requires max > 0
      modifies this
      ensures |data| <= max
      ensures err.NoErr? ==> Readable(old(chunks)) == data + Readable(chunks) && EndOf(old(chunks)) == EndOf(chunks)
      ensures err.NoErr? ==> Size(chunks) < Size(old(chunks))
      ensures !err.NoErr? ==> Readable(old(chunks)) == data && EndOf(old(chunks)) == err
    {
      if chunks == [] {
        return [], AtEOF;
      }
      var c := chunks[0];
      if |c.data| <= max {
        chunks := chunks[1..];
        return c.data, c.err;
      }
      data, err := c.data[..max], NoErr;
      chunks := [Chunk(c.data[max..], c.err)] + chunks[1..];
      assert c.data[..max] + c.data[max..] == c.data;
    }
  }

  /** Copying part of the next piece extends the part copied so far. */
  lemma CopyStep(before: seq<byte>, all: seq<byte>, copied: seq<byte>, data: seq<byte>, rest: seq<byte>, written: nat)
    requires all == copied + data + rest && written <= |data|
    ensures |copied| + written <= |all| && all[..|copied| + written] == copied + data[..written]
    ensures written == |data| ==> all == copied + data[..written] + rest
    ensures (before + copied) + data[..written] == before + (copied + data[..written])
  {
  }

  class QuicStream {
    var sent: seq<byte>            // bytes the transport has taken
    var answers: seq<WriteAnswer>  // its answers to the coming writes; then it takes all
    var incoming: seq<byte>        // bytes that have arrived and were not read yet

    constructor (answers: seq<WriteAnswer>, incoming: seq<byte>)
      ensures this.sent == [] && this.answers == answers && this.incoming == incoming
    {
      this.sent, this.answers, this.incoming := [], answers, incoming;
    }

    method Write(p: seq<byte>) returns (n: nat, err: bool)
      modifies this`sent, this`answers
      ensures n <= |p| && sent == old(sent) + p[..n]
      ensures n == if old(answers) == [] then |p| else Min(old(answers)[0].accept, |p|)
      ensures err <==> Fails(old(answers))
      ensures answers == Later(old(answers))
    {
      if answers == [] {
        n, err := |p|, false;
      } else {
        n, err := Min(answers[0].accept, |p|), answers[0].err;
        answers := answers[1..];
      }
      sent := sent + p[..n];
    }

    /** One turn of the write loop, and what it makes of the whole loop. */
    method WriteRest(p: seq<byte>, written: nat) returns (n: nat, failed: bool)
      requires written < |p|
      modifies this`sent, this`answers
      ensures written + n <= |p| && sent == old(sent) + p[written..][..n]
      ensures After(written, Loop(old(answers), |p| - written)) ==
              if failed then Written(written + n, TransportError, answers)
              else if n == 0 then Written(written + n, ShortWrite, answers)
              else After(written + n, Loop(answers, |p| - (written + n)))
    {
      ghost var asked := answers;
      n, failed := Write(p[written..]);
      LoopStep(|p|, written, asked, n);
    }

    /** The write loop of WriteFrame and of WriteFrom: it goes on until everything is taken, the
        transport fails, or it takes nothing. */
    method WriteLoop(p: seq<byte>) returns (written: nat, err: WriteError)
      modifies this`sent, this`answers
      ensures written <= |p| && sent == old(sent) + p[..written]
      ensures Answered(old(answers), answers, err) && (err.NoError? || err.TransportError? || err.ShortWrite?)
      ensures Written(written, err, answers) == Loop(old(answers), |p|)
    {
      LoopAnswered(answers, |p|);
      written := 0;
      while written < |p|
        invariant 0 <= written <= |p|
        invariant After(written, Loop(answers, |p| - written)) == Loop(old(answers), |p|)
        invariant sent == old(sent) + p[..written]
      {
        var n, failed := WriteRest(p, written);
        TakeMore(old(sent), p, written, n);
        written := written + n;
        if failed {
          return written, TransportError;
        }
        if n == 0 {
          return written, ShortWrite;
        }
      }
      return written, NoError;
    }

    /** WriteFrame does not look at how much of the header was taken. On success the frame went out
        intact exactly when the whole header was taken. */
    method WriteFrame(f: Frame) returns (err: WriteError)
      modifies this`sent, this`answers
      ensures err.FrameTooLarge? <==> |f.payload| >= 4_294_967_296
      ensures err.FrameTooLarge? ==> sent == old(sent) && answers == old(answers)
      ensures !err.FrameTooLarge? ==> sent == old(sent) + SentOf(old(answers), f)
      ensures err.NoError? ==> (sent == old(sent) + Encode(f) <==> HeaderTaken(old(answers)) == HEADER_SIZE)
      ensures !err.FrameTooLarge? ==>
        if Fails(old(answers)) then err.TransportError? && answers == old(answers)[1..]
        else
          var w := Loop(Later(old(answers)), |f.payload|);
          err == w.err && answers == w.rest && Answered(Later(old(answers)), answers, err)
    {
      if |f.payload| > MAX_PAYLOAD {
        return FrameTooLarge;
      }
      ghost var before := sent;
      var header := Header(f.frameType, |f.payload|);
      var h, failed := Write(header);
      if failed {
        assert SentOf(old(answers), f) == header[..h];
        return TransportError;
      }
      assert header[..HEADER_SIZE] == header;
      if |f.payload| == 0 {
        assert SentOf(old(answers), f) == header[..h];
        assert |sent| == |before| + h;
        return NoError;
      }
      var written;
      written, err := WriteLoop(f.payload);
      assert sent == before + SentOf(old(answers), f);
      assert |sent| == |before| + h + written;
    }

    /** Sends frames in order until one fails. */
    method WriteFrames(fs: seq<Frame>) returns (err: WriteError)
      requires Fits(fs)
      modifies this`sent, this`answers
      ensures sent == old(sent) + Sending(old(answers), fs).0 && err == Sending(old(answers), fs).1
      ensures err.NoError? && sent == old(sent) + EncodeAll(fs) <==> Willing(old(answers), fs)
      decreases |fs|
    {
      ghost var start := sent;
      WillingIff(answers, fs);
      SendingLength(answers, fs);
      err := NoError;
      if fs != [] {
        err := WriteFrame(fs[0]);
        if err.NoError? {
          err := WriteFrames(fs[1..]);
          Assoc(start, SentOf(old(answers), fs[0]), Sending(AfterFrame(old(answers), fs[0]).rest, fs[1..]).0);
        }
      }
      if sent == start + EncodeAll(fs) {
        SplitEqual(start, Sending(old(answers), fs).0, start, EncodeAll(fs));
      }
    }

    /** io.ReadFull. */
    method ReadFull(n: nat) returns (data: seq<byte>, err: ReadErr)
      requires n > 0
      modifies this`incoming
      ensures err.NoErr? <==> n <= |old(incoming)|
      ensures err.NoErr? ==> data == old(incoming)[..n] && incoming == old(incoming)[n..]
      ensures !err.NoErr? ==> incoming == [] && (err.AtEOF? <==> old(incoming) == [])
    {
      if n <= |incoming| {
        data, err := incoming[..n], NoErr;
        incoming := incoming[n..];
      } else {
        data, err := incoming, if incoming == [] then AtEOF else Broken;
        incoming := [];
      }
    }

    /** Reads exactly the first whole frame, or fails and leaves nothing when there is none. */
    method ReadFrame() returns (r: ReadResult)
      modifies this`incoming
      ensures r.Ok? <==> Decode(old(incoming)).Whole?
      ensures r.Ok? ==> Decode(old(incoming)) == Whole(r.frame, incoming)
      ensures !r.Ok? ==> incoming == []
      ensures r.EOF? <==> Decode(old(incoming)).Incomplete? && (|old(incoming)| == 0 || |old(incoming)| == 5)
    {
      ghost var b := incoming;
      var header, err := ReadFull(HEADER_SIZE);
      if !err.NoErr? {
        return if err.AtEOF? then EOF else UnexpectedEOF;
      }
      assert header[1..] == b[1..HEADER_SIZE];
      var length := Uint32(header[1..]);
      var payload: seq<byte> := [];
      if length > 0 {
        payload, err := ReadFull(length);
        if !err.NoErr? {
          return if err.AtEOF? then EOF else UnexpectedEOF;
        }
        assert b[HEADER_SIZE..][..length] == b[HEADER_SIZE..HEADER_SIZE + length];
        assert b[HEADER_SIZE..][length..] == b[HEADER_SIZE + length..];
      }
      return Ok(Frame(header[0], length, payload));
    }

    /** Reads frames until there is no whole one left. */
    method ReadFrames() returns (fs: seq<Frame>, last: ReadResult)
      modifies this`incoming
      ensures fs == DecodeAll(old(incoming)).0 && incoming == [] && !last.Ok?
      ensures last.EOF? <==> |DecodeAll(old(incoming)).1| == 0 || |DecodeAll(old(incoming)).1| == 5
    {
      fs := [];
      assert fs + DecodeAll(incoming).0 == DecodeAll(incoming).0;
      while true
        invariant DecodeAll(old(incoming)) == (fs + DecodeAll(incoming).0, DecodeAll(incoming).1)
        decreases |incoming|
      {
        ghost var b := incoming;
        last := ReadFrame();
        if !last.Ok? {
          return;
        }
        DecodeAllStep(b);
        assert fs + ([last.frame] + DecodeAll(incoming).0) == fs + [last.frame] + DecodeAll(incoming).0;
        fs := fs + [last.frame];
      }
    }

    /** Chunked copy: the count returned is the number of bytes sent, these are the first bytes the
        reader delivers, and without an error they are all of them and the reader reached EOF. */
    method WriteFrom(reader: Reader, chunkSize: int) returns (total: nat, err: WriteError)
      modifies this`sent, this`answers, reader
      ensures total <= |old(Readable(reader.chunks))| && sent == old(sent) + old(Readable(reader.chunks))[..total]
      ensures err.NoError? ==> total == |old(Readable(reader.chunks))| && old(EndOf(reader.chunks)).AtEOF?
      ensures err.ReaderError? ==> total == |old(Readable(reader.chunks))| && old(EndOf(reader.chunks)).Broken?
      ensures Answered(old(answers), answers, if err.ReaderError? then NoError else err)
    {
      var size: nat := if chunkSize <= 0 then 64 * 1024 else chunkSize;
      total := 0;
      ghost var all, end, copied := Readable(reader.chunks), EndOf(reader.chunks), [];
      while true
        invariant all == copied + Readable(reader.chunks) && end == EndOf(reader.chunks)
        invariant Answered(old(answers), answers, NoError)
        invariant sent == old(sent) + copied && total == |copied| <= |all| && all[..total] == copied
        decreases Size(reader.chunks)
      {
        var data, rErr := reader.Read(size);
        ghost var rest := if rErr.NoErr? then Readable(reader.chunks) else [];
        assert all == copied + data + rest;
        if |data| > 0 {
          ghost var asked := answers;
          var written, wErr := WriteLoop(data);
          AnsweredOn(old(answers), asked, answers, wErr);
          CopyStep(old(sent), all, copied, data, rest, written);
          total, copied := total + written, copied + data[..written];
          if !wErr.NoError? {
            return total, wErr;
          }
        }
        assert all == copied + rest;
        if rErr.AtEOF? {
          return total, NoError;
        }
        if !rErr.NoErr? {
          return total, ReaderError;
        }
      }
    }
  }

  /** Frames sent over one end and read at the other: with a willing transport every frame arrives, in
      order, with its length filled in, and then EOF. */
  method Exchange(source: QuicStream, target: QuicStream, fs: seq<Frame>)
    returns (err: WriteError, got: seq<Frame>, last: ReadResult)
    requires Fits(fs) && source != target && source.sent == [] && target.incoming == []
    modifies source, target
    ensures Willing(old(source.answers), fs) ==> err.NoError? && got == WithLengths(fs) && last.EOF?
  {
    err := source.WriteFrames(fs);
    target.incoming := source.sent;
    assert DecodeAll(EncodeAll(fs)) == (WithLengths(fs), []) by {
      ReadBack(fs, []);
      assert EncodeAll(fs) + [] == EncodeAll(fs);
    }
    assert [] + EncodeAll(fs) == EncodeAll(fs);
    got, last := target.ReadFrames();
  }

  /** A header cut short without an error can turn one frame into another: of a frame of type 5
      with payload [1, 7] only the last header byte is lost, and a frame with payload [7] is read. */
  lemma ShortHeaderCorrupts()
    ensures var answers, f := [WriteAnswer(4, false)], Frame(5, 2, [1, 7]);
      AfterFrame(answers, f).err.NoError? && Decode(SentOf(answers, f)) == Whole(Frame(5, 1, [7]), [])
  {
    var answers, f := [WriteAnswer(4, false)], Frame(5, 2, [1, 7]);
    assert Loop([], 2) == Written(2, NoError, []);
    var b := SentOf(answers, f);
    assert b == [5, 0, 0, 0, 1, 7];
    assert b[1..5] == [0, 0, 0, 1];
  }
}
