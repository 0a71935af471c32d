/** The wire format of server/transport/stream.go: a type byte, a big-endian 32-bit payload
    length, and the payload. */
module Frames {
  import opened Bytes

  const HEADER_SIZE: nat := 5
  const MAX_PAYLOAD: nat := 0xFFFF_FFFF

  datatype Frame = Frame(frameType: byte, length: nat, payload: seq<byte>)

  /** Frames as ReadFrame returns them; WriteFrame ignores the length field. */
  ghost predicate WellFormed(f: Frame) {
    f.length == |f.payload| <= MAX_PAYLOAD
  }

  function PutUint32(n: nat): (b: seq<byte>)
    requires n <= MAX_PAYLOAD
    ensures |b| == 4
  {
    [n / 256 / 256 / 256, n / 256 / 256 % 256, n / 256 % 256, n % 256]
  }

  function Uint32(b: seq<byte>): (n: nat)
    requires |b| == 4
    ensures n <= MAX_PAYLOAD
  {
    ((b[0] as int * 256 + b[1]) * 256 + b[2]) * 256 + b[3]
  }

  lemma Uint32OfPut(n: nat)
    requires n <= MAX_PAYLOAD
    ensures Uint32(PutUint32(n)) == n
  {
  }

  lemma PutOfUint32(b: seq<byte>)
    requires |b| == 4
    ensures PutUint32(Uint32(b)) == b
  {
    var hi: int := b[0] as int * 256 + b[1];
    var mid := hi * 256 + b[2];
    assert Uint32(b) == mid * 256 + b[3];
    assert Uint32(b) / 256 == mid && mid / 256 == hi && hi / 256 == b[0];
  }

  function Header(frameType: byte, length: nat): (h: seq<byte>)
    requires length <= MAX_PAYLOAD
    ensures |h| == HEADER_SIZE
  {
    [frameType] + PutUint32(length)
  }

  function Encode(f: Frame): seq<byte>
    requires |f.payload| <= MAX_PAYLOAD
  {
    Header(f.frameType, |f.payload|) + f.payload
  }

  /** The length a header announces. */
  function LengthAt(b: seq<byte>): nat
    requires |b| >= 5
  {
    16_777_216 * (b[1] as int) + 65_536 * (b[2] as int) + 256 * (b[3] as int) + b[4] as int
  }

  /** The bytes of a frame: its type, the payload's length with the most significant byte first, the payload. */
  lemma WireFormat(f: Frame)
    requires |f.payload| < 4_294_967_296
    ensures var b := Encode(f);
      && |b| == 5 + |f.payload| && b[0] == f.frameType && b[5..] == f.payload
      && |f.payload| == LengthAt(b)
  {
    Uint32OfPut(|f.payload|);
    assert Encode(f)[1..HEADER_SIZE] == PutUint32(|f.payload|);
  }

  datatype Parsed = Whole(frame: Frame, rest: seq<byte>) | Incomplete

  /** The first frame of a byte string, if all of it is there. */
  function Decode(b: seq<byte>): (p: Parsed)
    ensures p.Whole? ==> |p.rest| < |b| && WellFormed(p.frame)
  {
    if |b| < HEADER_SIZE then Incomplete
    else
      var n := Uint32(b[1..HEADER_SIZE]);
      if |b| < HEADER_SIZE + n then Incomplete
      else Whole(Frame(b[0], n, b[HEADER_SIZE..HEADER_SIZE + n]), b[HEADER_SIZE + n..])
  }

  /** There is a whole frame exactly when there are as many bytes as the length in the header says. */
  lemma WholeIff(b: seq<byte>)
    ensures Decode(b).Whole? <==> |b| >= 5 && |b| >= 5 + LengthAt(b)
    ensures Decode(b).Whole? ==> Decode(b).frame.frameType == b[0]
  {
    if |b| >= 5 {
      assert b[1..5] == [b[1], b[2], b[3], b[4]];
    }
  }

  lemma DecodeOfEncode(f: Frame, rest: seq<byte>)
    requires |f.payload| <= MAX_PAYLOAD
    ensures Decode(Encode(f) + rest) == Whole(f.(length := |f.payload|), rest)
  {
    var b, n := Encode(f) + rest, |f.payload|;
    assert b[1..HEADER_SIZE] == PutUint32(n);
    Uint32OfPut(n);
    assert b[HEADER_SIZE..HEADER_SIZE + n] == f.payload && b[HEADER_SIZE + n..] == rest;
  }

  lemma EncodeOfDecode(b: seq<byte>)
    requires Decode(b).Whole?
    ensures Encode(Decode(b).frame) + Decode(b).rest == b
  {
    var n := Uint32(b[1..HEADER_SIZE]);
    PutOfUint32(b[1..HEADER_SIZE]);
    assert [b[0]] + b[1..HEADER_SIZE] == b[..HEADER_SIZE];
    assert b[..HEADER_SIZE] + b[HEADER_SIZE..HEADER_SIZE + n] + b[HEADER_SIZE + n..] == b;
  }

  /** What a cut-off write leaves behind cannot be read as a frame. */
  lemma ProperPrefixIncomplete(f: Frame, p: seq<byte>)
    requires |f.payload| <= MAX_PAYLOAD && p < Encode(f)
    ensures Decode(p) == Incomplete
  {
    if |p| >= HEADER_SIZE {
      assert p[1..HEADER_SIZE] == Encode(f)[1..HEADER_SIZE] == PutUint32(|f.payload|);
      Uint32OfPut(|f.payload|);
    }
  }

  // ---------------------------------------------------------------- streams of frames

  ghost predicate Fits(fs: seq<Frame>) {
    forall i :: 0 <= i < |fs| ==> |fs[i].payload| <= MAX_PAYLOAD
  }

  ghost predicate AllWellFormed(fs: seq<Frame>) {
    forall i :: 0 <= i < |fs| ==> WellFormed(fs[i])
  }

  ghost function EncodeAll(fs: seq<Frame>): seq<byte>
    requires Fits(fs)
  {
    if fs == [] then [] else Encode(fs[0]) + EncodeAll(fs[1..])
  }

  lemma {:induction false} EncodeAllSnoc(fs: seq<Frame>, f: Frame)
    requires Fits(fs + [f])
    ensures Fits(fs) && |f.payload| <= MAX_PAYLOAD && EncodeAll(fs + [f]) == EncodeAll(fs) + Encode(f)
  {
    assert forall i :: 0 <= i < |fs| ==> (fs + [f])[i] == fs[i];
    assert (fs + [f])[|fs|] == f;
    if fs == [] {
      assert fs + [f] == [f];
      assert EncodeAll([f]) == Encode(f) + EncodeAll([]);
    } else {
      assert (fs + [f])[1..] == fs[1..] + [f];
      EncodeAllSnoc(fs[1..], f);
      Assoc(Encode(fs[0]), EncodeAll(fs[1..]), Encode(f));
    }
  }

  /** All whole frames from the front, and the incomplete tail. */
  function DecodeAll(b: seq<byte>): (r: (seq<Frame>, seq<byte>))
    ensures AllWellFormed(r.0) && Fits(r.0)
    ensures Decode(r.1) == Incomplete
    decreases |b|
  {
    match Decode(b)
    case Incomplete => ([], b)
    case Whole(f, rest) => var (fs, tail) := DecodeAll(rest); ([f] + fs, tail)
  }

  /** The frames as a reader sees them: same types and payloads, lengths filled in. */
  function WithLengths(fs: seq<Frame>): (gs: seq<Frame>)
    ensures |gs| == |fs|
    ensures forall i :: 0 <= i < |fs| ==> gs[i] == Frame(fs[i].frameType, |fs[i].payload|, fs[i].payload)
  {
    if fs == [] then [] else [Frame(fs[0].frameType, |fs[0].payload|, fs[0].payload)] + WithLengths(fs[1..])
  }

  lemma Assoc(a: seq<byte>, b: seq<byte>, c: seq<byte>)
    ensures a + b + c == a + (b + c)
  {
  }

  lemma DecodeAllStep(b: seq<byte>)
    requires Decode(b).Whole?
    ensures var r := DecodeAll(Decode(b).rest); DecodeAll(b) == ([Decode(b).frame] + r.0, r.1)
  {
  }

  /** Reading back: whatever was written, in order, and then the tail. */
  lemma {:induction false} ReadBack(fs: seq<Frame>, tail: seq<byte>)
    requires Fits(fs) && Decode(tail) == Incomplete
    ensures DecodeAll(EncodeAll(fs) + tail) == (WithLengths(fs), tail)
  {
    if fs == [] {
      assert EncodeAll(fs) + tail == tail;
    } else {
      ReadBack(fs[1..], tail);
      var rest := EncodeAll(fs[1..]) + tail;
      Assoc(Encode(fs[0]), EncodeAll(fs[1..]), tail);
      DecodeOfEncode(fs[0], rest);
      DecodeAllStep(EncodeAll(fs) + tail);
    }
  }

  /** Every byte string is its frames followed by its incomplete tail. */
  lemma {:induction false} SplitsIntoFrames(b: seq<byte>)
    ensures EncodeAll(DecodeAll(b).0) + DecodeAll(b).1 == b
    decreases |b|
  {
    if Decode(b).Whole? {
      var f, rest := Decode(b).frame, Decode(b).rest;
      SplitsIntoFrames(rest);
      EncodeOfDecode(b);
      var (fs, tail) := DecodeAll(rest);
      assert ([f] + fs)[1..] == fs;
      Assoc(Encode(f), EncodeAll(fs), tail);
    }
  }

  /** That split is the only one. */
  lemma SplitIsUnique(fs: seq<Frame>, tail: seq<byte>, b: seq<byte>)
    requires AllWellFormed(fs) && Fits(fs)
    requires Decode(tail) == Incomplete && EncodeAll(fs) + tail == b
    ensures (fs, tail) == DecodeAll(b)
  {
    ReadBack(fs, tail);
    assert WithLengths(fs) == fs;
  }

  /** A stream whose last write was cut off still delivers every frame written before it. */
  lemma CutOffStream(fs: seq<Frame>, f: Frame, p: seq<byte>)
    requires AllWellFormed(fs) && Fits(fs)
    requires |f.payload| <= MAX_PAYLOAD && p < Encode(f)
    ensures DecodeAll(EncodeAll(fs) + p) == (fs, p)
  {
    ProperPrefixIncomplete(f, p);
    SplitIsUnique(fs, p, EncodeAll(fs) + p);
  }
}
