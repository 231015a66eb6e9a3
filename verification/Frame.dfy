/** The length-prefixed frame codec, and why it survives a transport that cuts the stream anywhere. */
module Frame {
  import opened Common
  import opened Bytes

  const HEADER_LEN: nat := 5
  const MAX_PAYLOAD_LEN: nat := 32 * 1024 * 1024

  datatype FrameError = TooLarge(len: nat) | UnknownFlags(bits: Byte)

  /** Flags as received or built: three known bits. */
  datatype Frame = Frame(flags: Byte, payload: Data)

  /** Rejects any bit outside the lowest three. */
  function FromBits(bits: Byte): Result<Byte, FrameError> {
    if bits / 8 != 0 then Err(UnknownFlags(bits)) else Ok(bits)
  }

  function NewFrame(flags: Byte, payload: Data): Result<Frame, FrameError> {
    if |payload| > MAX_PAYLOAD_LEN then Err(TooLarge(|payload|)) else Ok(Frame(flags, payload))
  }

  /** What the constructors guarantee of every frame. */
  predicate Buildable(f: Frame) {
    FromBits(f.flags).Ok? && NewFrame(f.flags, f.payload) == Ok(f)
  }

  function Encode(f: Frame): Data {
    BigEndian(|f.payload|, 4) + [f.flags] + f.payload
  }

  method EncodeTo(f: Frame, buf: Buffer)
    requires Buildable(f)
    modifies buf
    ensures buf.bytes == old(buf.bytes) + Encode(f)
  {
    var len: U32 := |f.payload|;
    buf.Extend(BigEndian(len, 4));
    buf.Push(f.flags);
    buf.Extend(f.payload);
  }

  /** One frame from the front of `buf` and the bytes it took, nothing yet, or a broken stream. */
  function Decode(buf: Data): (r: Result<Option<(Frame, nat)>, FrameError>)
    ensures r.Ok? && r.value.Some? ==> 0 < r.value.value.1 <= |buf|
  {
    if |buf| < HEADER_LEN then Ok(None)
    else
      var len := FromBigEndian(buf[..4]);
      if len > MAX_PAYLOAD_LEN then Err(TooLarge(len))
      else
        match FromBits(buf[4])
        case Err(e) => Err(e)
        case Ok(flags) =>
          var total := HEADER_LEN + len;
          if |buf| < total then Ok(None)
          else Ok(Some((Frame(flags, buf[HEADER_LEN..total]), total)))
  }

  function BytesNeeded(buf: Data): Result<Option<nat>, FrameError> {
    if |buf| < HEADER_LEN then Ok(Some(HEADER_LEN - |buf|))
    else
      var len := FromBigEndian(buf[..4]);
      if len > MAX_PAYLOAD_LEN then Err(TooLarge(len))
      else
        var total := HEADER_LEN + len;
        if |buf| >= total then Ok(None) else Ok(Some(total - |buf|))
  }

  // ----- one frame -----

  /** An answer, once given, is not changed by more bytes arriving. */
  lemma DecodeIsStable(buf: Data, more: Data)
    requires Decode(buf) != Ok(None)
    ensures Decode(buf + more) == Decode(buf)
  {
    assert (buf + more)[..4] == buf[..4];
    if Decode(buf).Ok? {
      var total := Decode(buf).value.value.1;
      assert (buf + more)[HEADER_LEN..total] == buf[HEADER_LEN..total];
    }
  }

  lemma DecodeOfEncode(f: Frame, more: Data)
    requires Buildable(f)
    ensures Decode(Encode(f) + more) == Ok(Some((f, |Encode(f)|)))
  {
    var buf := Encode(f) + more;
    Widths();
    BigEndianRoundTrip(|f.payload|, 4);
    assert buf[..4] == BigEndian(|f.payload|, 4) && buf[4] == f.flags;
    assert buf[HEADER_LEN..HEADER_LEN + |f.payload|] == f.payload;
  }

  /** What is decoded is exactly what some encoder would have written there. */
  lemma EncodeOfDecode(buf: Data)
    requires Decode(buf).Ok? && Decode(buf).value.Some?
    ensures var (f, n) := Decode(buf).value.value;
            Buildable(f) && n <= |buf| && buf[..n] == Encode(f)
  {
    var (f, n) := Decode(buf).value.value;
    FromBigEndianRoundTrip(buf[..4]);
    assert buf[..n] == buf[..4] + [buf[4]] + buf[HEADER_LEN..n];
  }

  /** An incomplete frame is waited for, never misread, and never over-read. */
  lemma PartialFrame(f: Frame, have: nat)
    requires Buildable(f) && have < |Encode(f)|
    ensures Decode(Encode(f)[..have]) == Ok(None)
    ensures var needed := BytesNeeded(Encode(f)[..have]);
            && needed.Ok? && needed.value.Some? && needed.value.value > 0
            && have + needed.value.value == if have < HEADER_LEN then HEADER_LEN else |Encode(f)|
  {
    var buf := Encode(f)[..have];
    Widths();
    BigEndianRoundTrip(|f.payload|, 4);
    if have >= HEADER_LEN {
      assert buf[..4] == BigEndian(|f.payload|, 4) && buf[4] == f.flags;
    }
  }

  lemma CompleteFrame(f: Frame, more: Data)
    requires Buildable(f)
    ensures BytesNeeded(Encode(f) + more) == Ok(None)
  {
    Widths();
    BigEndianRoundTrip(|f.payload|, 4);
    assert (Encode(f) + more)[..4] == BigEndian(|f.payload|, 4);
  }

  /** The two questions agree, except that only decoding looks at the flags. */
  lemma NeedsAgree(buf: Data)
    ensures Decode(buf) == Ok(None) ==> BytesNeeded(buf).Ok? && BytesNeeded(buf).value.Some?
    ensures BytesNeeded(buf).Err? ==> Decode(buf) == Err(BytesNeeded(buf).error)
    ensures BytesNeeded(buf) == Ok(None) ==>
              Decode(buf) != Ok(None) && (Decode(buf).Err? ==> Decode(buf) == Err(UnknownFlags(buf[4])))
  {
  }

  /** The length a header announces. */
  function Announced(buf: Data): nat
    requires |buf| >= 4
  {
    var b0: nat, b1: nat, b2: nat := buf[0], buf[1], buf[2];
    b0 * 0x100_0000 + b1 * 0x1_0000 + b2 * 0x100 + buf[3]
  }

  lemma LastByte(buf: Data, n: nat)
    requires n < |buf|
    ensures FromBigEndian(buf[..n + 1]) == FromBigEndian(buf[..n]) * 256 + buf[n]
  {
    assert buf[..n + 1][..n] == buf[..n];
  }

  lemma FourBytes(buf: Data)
    requires |buf| >= 4
    ensures FromBigEndian(buf[..4]) == Announced(buf)
  {
    LastByte(buf, 0);
    LastByte(buf, 1);
    LastByte(buf, 2);
    LastByte(buf, 3);
    assert FromBigEndian(buf[..0]) == 0;
  }

  /** On the wire: four bytes of length, most significant first, one of flags, then the payload. */
  lemma WireLayout(f: Frame)
    requires Buildable(f)
    ensures var b := Encode(f);
            |b| == 5 + |f.payload| && Announced(b) == |f.payload| && b[4] == f.flags && b[5..] == f.payload
  {
    var b := Encode(f);
    Widths();
    BigEndianRoundTrip(|f.payload|, 4);
    assert b[..4] == BigEndian(|f.payload|, 4);
    FourBytes(b);
  }

  /** A frame can be built up to 32 MiB and from three flag bits. */
  lemma BuildableExactly(f: Frame)
    ensures Buildable(f) <==> |f.payload| <= 32 * 1024 * 1024 && f.flags < 8
  {
  }

  /**
   * Once a header is there it decides: a length over the limit is refused by both questions before
   * anything more arrives, an unknown flag by decoding; otherwise exactly the announced bytes are
   * waited for, and taken.
   */
  lemma HeaderDecides(buf: Data)
    ensures |buf| < 5 ==> Decode(buf) == Ok(None) && BytesNeeded(buf) == Ok(Some(5 - |buf|))
    ensures |buf| >= 5 ==>
              var n := Announced(buf);
              if n > 32 * 1024 * 1024 then Decode(buf) == Err(TooLarge(n)) && BytesNeeded(buf) == Err(TooLarge(n))
              else
                && (BytesNeeded(buf) == Ok(if |buf| >= 5 + n then None else Some(5 + n - |buf|)))
                && (if buf[4] >= 8 then Decode(buf) == Err(UnknownFlags(buf[4]))
                    else if |buf| < 5 + n then Decode(buf) == Ok(None)
                    else Decode(buf) == Ok(Some((Frame(buf[4], buf[5..5 + n]), 5 + n))))
  {
    if |buf| >= 5 {
      FourBytes(buf);
    }
  }

  // ----- the stream -----

  /** What a reader has made of the bytes so far. A failure ends the connection. */
  datatype Reading = Reading(frames: seq<Frame>, pending: Data, failure: Option<FrameError>)

  const START: Reading := Reading([], [], None)

  /** Takes every complete frame off the front. */
  function Drain(buf: Data): Reading
    decreases |buf|
  {
    match Decode(buf)
    case Err(e) => Reading([], buf, Some(e))
    case Ok(None) => Reading([], buf, None)
    case Ok(Some((f, n))) => After(f, Drain(buf[n..]))
  }

  function After(f: Frame, r: Reading): Reading {
    r.(frames := [f] + r.frames)
  }

  function Feed(r: Reading, chunk: Data): Reading {
    if r.failure.Some? then r
    else
      var d := Drain(r.pending + chunk);
      d.(frames := r.frames + d.frames)
  }

  function FeedAll(r: Reading, chunks: seq<Data>): Reading
    decreases |chunks|
  {
    if chunks == [] then r else FeedAll(Feed(r, chunks[0]), chunks[1..])
  }

  function Flatten(chunks: seq<Data>): Data {
    if chunks == [] then [] else chunks[0] + Flatten(chunks[1..])
  }

  function EncodeAll(frames: seq<Frame>): Data {
    if frames == [] then [] else Encode(frames[0]) + EncodeAll(frames[1..])
  }

  /** Same frames, same failure, and the same leftover while the stream is healthy. */
  predicate Agree(a: Reading, b: Reading) {
    a.frames == b.frames && a.failure == b.failure && (a.failure.None? ==> a.pending == b.pending)
  }

  lemma FeedAfter(f: Frame, r: Reading, chunk: Data)
    ensures Feed(After(f, r), chunk) == After(f, Feed(r, chunk))
  {
    if r.failure.None? {
      assert ([f] + r.frames) + Drain(r.pending + chunk).frames == [f] + (r.frames + Drain(r.pending + chunk).frames);
    }
  }

  lemma FeedNothing(a: Data, b: Data)
    requires Decode(a) == Ok(None)
    ensures Feed(Drain(a), b) == Drain(a + b)
  {
    assert [] + Drain(a + b).frames == Drain(a + b).frames;
  }

  lemma {:induction false} DrainAppend(a: Data, b: Data)
    ensures Agree(Drain(a + b), Feed(Drain(a), b))
    decreases |a|
  {
    if Decode(a) == Ok(None) {
      FeedNothing(a, b);
    } else {
      DecodeIsStable(a, b);
      if Decode(a).Ok? {
        var (f, n) := Decode(a).value.value;
        assert (a + b)[n..] == a[n..] + b;
        DrainAppend(a[n..], b);
        FeedAfter(f, Drain(a[n..]), b);
      }
    }
  }

  lemma FeedAgrees(a: Data, r: Reading, chunk: Data)
    requires Agree(Drain(a), r)
    ensures Agree(Drain(a + chunk), Feed(r, chunk))
  {
    DrainAppend(a, chunk);
  }

  lemma {:induction false} FeedAllAgrees(whole: Data, r: Reading, chunks: seq<Data>)
    requires Agree(Drain(whole), r)
    ensures Agree(Drain(whole + Flatten(chunks)), FeedAll(r, chunks))
    decreases |chunks|
  {
    if chunks == [] {
      assert whole + Flatten(chunks) == whole;
    } else {
      FeedAgrees(whole, r, chunks[0]);
      FeedAllAgrees(whole + chunks[0], Feed(r, chunks[0]), chunks[1..]);
      assert (whole + chunks[0]) + Flatten(chunks[1..]) == whole + Flatten(chunks);
    }
  }

  /** Any bytes, cut anywhere, are read as they would be read whole: same frames, same error. */
  lemma ChunksDoNotMatter(chunks: seq<Data>)
    ensures Agree(Drain(Flatten(chunks)), FeedAll(START, chunks))
  {
    FeedAllAgrees([], START, chunks);
    assert [] + Flatten(chunks) == Flatten(chunks);
  }

  lemma {:induction false} DrainOfEncodeAll(frames: seq<Frame>)
    requires forall f :: f in frames ==> Buildable(f)
    ensures Drain(EncodeAll(frames)) == Reading(frames, [], None)
  {
    if frames != [] {
      var rest := EncodeAll(frames[1..]);
      DecodeOfEncode(frames[0], rest);
      DrainOfEncodeAll(frames[1..]);
      assert (Encode(frames[0]) + rest)[|Encode(frames[0])|..] == rest;
    }
  }

  /** Frames written one after another arrive as exactly those frames, however the stream is cut. */
  lemma FramesSurviveChunking(frames: seq<Frame>, chunks: seq<Data>)
    requires forall f :: f in frames ==> Buildable(f)
    requires Flatten(chunks) == EncodeAll(frames)
    ensures FeedAll(START, chunks) == Reading(frames, [], None)
  {
    DrainOfEncodeAll(frames);
    ChunksDoNotMatter(chunks);
  }
}
