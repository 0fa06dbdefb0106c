// The repair connection's two byte formats: a request naming exact sequence
// numbers of one bucket, and a response frame carrying one payload or the
// zero-length marker for "no longer held".
module RepairWire {
  import opened Bytes
  import opened Messages

  const MAX_REPAIR_BATCH: nat := 512
  const FRAME_HEADER: nat := 12
  const REPAIR_FRAME_MAX: nat := FRAME_HEADER + ORDER_MESSAGE_SIZE
  const BUCKETS: nat := 4
  const REPAIR_BUF_CAP: nat := MAX_REPAIR_BATCH * REPAIR_FRAME_MAX * BUCKETS + 4096

  /** A frame whose length field is acceptable: a whole payload, or nothing. */
  datatype Frame = Frame(bucket: u16, sequence: u64, payload: Option<Payload>)

  function Body(f: Frame): seq<byte> {
    match f.payload case Some(p) => p case None => []
  }

  function EncodeFrame(f: Frame): (bytes: seq<byte>)
    ensures |bytes| == FRAME_HEADER + |Body(f)|
  {
    LE(f.bucket, 2) + LE(f.sequence, 8) + LE(|Body(f)|, 2) + Body(f)
  }

  function EncodeFrames(fs: seq<Frame>): seq<byte>
    decreases |fs|
  {
    if fs == [] then [] else EncodeFrame(fs[0]) + EncodeFrames(fs[1..])
  }

  /** The first frame is there in full. */
  predicate Complete(bytes: seq<byte>) {
    |bytes| >= FRAME_HEADER && |bytes| >= FRAME_HEADER + GetU16(bytes, 10)
  }

  predicate LengthOk(bytes: seq<byte>)
    requires Complete(bytes)
  {
    GetU16(bytes, 10) == 0 || GetU16(bytes, 10) == ORDER_MESSAGE_SIZE
  }

  function HeadFrame(bytes: seq<byte>): Frame
    requires Complete(bytes) && LengthOk(bytes)
  {
    Frame(GetU16(bytes, 0), GetU64(bytes, 2), if GetU16(bytes, 10) == 0 then None else Some(bytes[12..41]))
  }

  /** The frames at the front of a byte string, the bytes left over, and
      whether the first of those is a complete frame of impossible length. */
  datatype Parse = Parse(frames: seq<Frame>, rest: seq<byte>, bad: bool)

  function ParseFrames(bytes: seq<byte>): (r: Parse)
    ensures r.bad || !Complete(r.rest)
    ensures r.bad ==> Complete(r.rest) && !LengthOk(r.rest)
    decreases |bytes|
  {
    if !Complete(bytes) then Parse([], bytes, false)
    else if !LengthOk(bytes) then Parse([], bytes, true)
    else
      var after := ParseFrames(bytes[12 + GetU16(bytes, 10)..]);
      Parse([HeadFrame(bytes)] + after.frames, after.rest, after.bad)
  }

  /** A frame at the front of the bytes is read as what was written. */
  lemma HeadOfEncoded(f: Frame, more: seq<byte>)
    ensures Complete(EncodeFrame(f) + more) && LengthOk(EncodeFrame(f) + more)
    ensures HeadFrame(EncodeFrame(f) + more) == f
    ensures 12 + GetU16(EncodeFrame(f) + more, 10) == |EncodeFrame(f)|
    ensures (EncodeFrame(f) + more)[|EncodeFrame(f)|..] == more
  {
    var bytes := EncodeFrame(f) + more;
    Fields(LE(f.bucket, 2), LE(f.sequence, 8), LE(|Body(f)|, 2), Body(f), more, bytes);
    ReadWord(bytes, 0, f.bucket, 2);
    ReadWord(bytes, 2, f.sequence, 8);
    ReadWord(bytes, 10, |Body(f)|, 2);
  }

  /** The bytes of an acceptable complete frame are the encoding of that frame. */
  lemma EncodedHead(bytes: seq<byte>)
    requires Complete(bytes) && LengthOk(bytes)
    ensures bytes == EncodeFrame(HeadFrame(bytes)) + bytes[12 + GetU16(bytes, 10)..]
  {
    var length := GetU16(bytes, 10);
    WrittenRead(bytes[0..2]);
    WrittenRead(bytes[2..10]);
    WrittenRead(bytes[10..12]);
    Rejoin(bytes, 2, 10, 12, 12 + length, 12 + length);
    assert bytes == bytes[..12 + length] + bytes[12 + length..];
    assert Body(HeadFrame(bytes)) == bytes[12..12 + length];
  }

  lemma ParseOne(f: Frame, more: seq<byte>)
    ensures ParseFrames(EncodeFrame(f) + more)
            == Parse([f] + ParseFrames(more).frames, ParseFrames(more).rest, ParseFrames(more).bad)
  {
    HeadOfEncoded(f, more);
  }

  lemma Regroup(a: seq<byte>, b: seq<byte>, c: seq<byte>)
    ensures a + b + c == a + (b + c)
  {
  }

  lemma FirstFrame(fs: seq<Frame>, tail: seq<byte>)
    requires fs != []
    ensures EncodeFrames(fs) + tail == EncodeFrame(fs[0]) + (EncodeFrames(fs[1..]) + tail)
  {
    Regroup(EncodeFrame(fs[0]), EncodeFrames(fs[1..]), tail);
  }

  lemma NoFrames(tail: seq<byte>)
    ensures EncodeFrames([]) + tail == tail
  {
  }

  lemma Prepend(f: Frame, fs: seq<Frame>, found: seq<Frame>)
    ensures [f] + (fs + found) == [f] + fs + found
  {
  }

  /** Frames followed by anything parse as those frames followed by the parse
      of the rest. */
  lemma {:induction false} ParseEncoded(fs: seq<Frame>, tail: seq<byte>)
    ensures ParseFrames(EncodeFrames(fs) + tail)
            == Parse(fs + ParseFrames(tail).frames, ParseFrames(tail).rest, ParseFrames(tail).bad)
    decreases |fs|
  {
    var p := ParseFrames(tail);
    if fs == [] {
      NoFrames(tail);
      assert [] + p.frames == p.frames;
    } else {
      var more := EncodeFrames(fs[1..]) + tail;
      FirstFrame(fs, tail);
      ParseEncoded(fs[1..], tail);
      ParseOne(fs[0], more);
      Prepend(fs[0], fs[1..], p.frames);
      assert fs == [fs[0]] + fs[1..];
    }
  }

  /** The parse loses and invents nothing. */
  lemma {:induction false} ParseRebuilds(bytes: seq<byte>)
    ensures bytes == EncodeFrames(ParseFrames(bytes).frames) + ParseFrames(bytes).rest
    decreases |bytes|
  {
    if Complete(bytes) && LengthOk(bytes) {
      var after := bytes[12 + GetU16(bytes, 10)..];
      EncodedHead(bytes);
      ParseRebuilds(after);
      var p, q := ParseFrames(bytes), ParseFrames(after);
      assert p.frames[1..] == q.frames;
      assert EncodeFrames(p.frames) == EncodeFrame(HeadFrame(bytes)) + EncodeFrames(q.frames);
    }
  }

  /** It is the only way to cut the bytes into frames and an incomplete tail. */
  lemma ParseUnique(bytes: seq<byte>, fs: seq<Frame>, rest: seq<byte>)
    requires bytes == EncodeFrames(fs) + rest && !Complete(rest)
    ensures ParseFrames(bytes) == Parse(fs, rest, false)
  {
    ParseEncoded(fs, rest);
    assert fs + [] == fs;
  }

  /** Parsing what has arrived so far, and later the retained bytes with what
      arrived since, finds the same frames as parsing everything at once. */
  lemma ParseInPieces(a: seq<byte>, b: seq<byte>)
    requires !ParseFrames(a).bad
    ensures ParseFrames(a + b).frames == ParseFrames(a).frames + ParseFrames(ParseFrames(a).rest + b).frames
    ensures ParseFrames(a + b).rest == ParseFrames(ParseFrames(a).rest + b).rest
    ensures ParseFrames(a + b).bad == ParseFrames(ParseFrames(a).rest + b).bad
  {
    ParseRebuilds(a);
    Regroup(EncodeFrames(ParseFrames(a).frames), ParseFrames(a).rest, b);
    ParseEncoded(ParseFrames(a).frames, ParseFrames(a).rest + b);
  }

  /** Feeding a stream chunk by chunk: frames found, bytes retained. A bad
      frame length stops the feed. */
  function Feed(held: seq<byte>, chunks: seq<seq<byte>>): Parse
    decreases |chunks|
  {
    if chunks == [] then Parse([], held, false) else
      var now := ParseFrames(held + chunks[0]);
      if now.bad then now else
        var later := Feed(now.rest, chunks[1..]);
        Parse(now.frames + later.frames, later.rest, later.bad)
  }

  function Joined(chunks: seq<seq<byte>>): seq<byte>
    decreases |chunks|
  {
    if chunks == [] then [] else chunks[0] + Joined(chunks[1..])
  }

  /** However the bytes are cut into chunks, the frames found and the bytes
      retained are those of the whole; a bad length anywhere is noticed, and
      then no frame after it is used. */
  lemma {:induction false} FeedIgnoresCuts(held: seq<byte>, chunks: seq<seq<byte>>)
    requires !Complete(held)
    ensures Feed(held, chunks).bad == ParseFrames(held + Joined(chunks)).bad
    ensures Feed(held, chunks).frames == ParseFrames(held + Joined(chunks)).frames
    ensures !Feed(held, chunks).bad ==> Feed(held, chunks).rest == ParseFrames(held + Joined(chunks)).rest
    decreases |chunks|
  {
    if chunks == [] {
      assert held + Joined(chunks) == held;
    } else {
      var now := ParseFrames(held + chunks[0]);
      var later := Joined(chunks[1..]);
      assert held + Joined(chunks) == (held + chunks[0]) + later;
      if now.bad {
        BadStays(held + chunks[0], later);
      } else {
        ParseInPieces(held + chunks[0], later);
        FeedIgnoresCuts(now.rest, chunks[1..]);
      }
    }
  }

  lemma BadHead(bytes: seq<byte>, more: seq<byte>)
    requires Complete(bytes) && !LengthOk(bytes)
    ensures ParseFrames(bytes + more) == Parse([], bytes + more, true)
  {
    assert (bytes + more)[10..12] == bytes[10..12];
  }

  lemma BadStays(a: seq<byte>, b: seq<byte>)
    requires ParseFrames(a).bad
    ensures ParseFrames(a + b).bad && ParseFrames(a + b).frames == ParseFrames(a).frames
  {
    ParseRebuilds(a);
    Regroup(EncodeFrames(ParseFrames(a).frames), ParseFrames(a).rest, b);
    ParseEncoded(ParseFrames(a).frames, ParseFrames(a).rest + b);
    BadHead(ParseFrames(a).rest, b);
    assert ParseFrames(a).frames + [] == ParseFrames(a).frames;
  }

  /** A buffer that is full always holds a complete frame, so parsing always
      makes room: what is retained is smaller than one frame of any length. */
  lemma NeverWedged(bytes: seq<byte>)
    ensures |bytes| == REPAIR_BUF_CAP ==> Complete(bytes)
    ensures !ParseFrames(bytes).bad ==> |ParseFrames(bytes).rest| < FRAME_HEADER + 0x1_0000 - 1 < REPAIR_BUF_CAP
  {
  }

  // ---- requests ---------------------------------------------------------------

  datatype Request = Request(bucket: u16, sequences: seq<u64>)

  function EncodeSequences(sequences: seq<u64>): (bytes: seq<byte>)
    ensures |bytes| == 8 * |sequences|
    decreases |sequences|
  {
    if sequences == [] then [] else LE(sequences[0], 8) + EncodeSequences(sequences[1..])
  }

  function EncodeRequest(r: Request): seq<byte> {
    LE(r.bucket, 2) + LE(|r.sequences|, 2) + EncodeSequences(r.sequences)
  }

  function ReadSequences(bytes: seq<byte>, count: nat): (sequences: seq<u64>)
    requires |bytes| >= 8 * count
    ensures |sequences| == count
    decreases count
  {
    if count == 0 then [] else [GetU64(bytes, 0)] + ReadSequences(bytes[8..], count - 1)
  }

  lemma WordThenMore(value: u64, more: seq<byte>)
    ensures GetU64(LE(value, 8) + more, 0) == value && (LE(value, 8) + more)[8..] == more
  {
    var word := LE(value, 8);
    assert (word + more)[0..8] == word;
    ReadWord(word + more, 0, value, 8);
  }

  lemma {:induction false} SequencesRoundTrip(sequences: seq<u64>, more: seq<byte>)
    ensures ReadSequences(EncodeSequences(sequences) + more, |sequences|) == sequences
    decreases |sequences|
  {
    hide LE;
    if sequences != [] {
      Regroup(LE(sequences[0], 8), EncodeSequences(sequences[1..]), more);
      WordThenMore(sequences[0], EncodeSequences(sequences[1..]) + more);
      SequencesRoundTrip(sequences[1..], more);
    }
  }

  /** What the server reads before it hangs up: one acceptable request, and
      the bytes behind it. */
  function ReadRequest(bytes: seq<byte>, bucketCount: nat): Option<(Request, seq<byte>)> {
    if |bytes| < 4 then None
    else
      var bucket, count := GetU16(bytes, 0), GetU16(bytes, 2);
      if bucket >= bucketCount || count == 0 || count > MAX_REPAIR_BATCH || |bytes| < 4 + 8 * count then None
      else Some((Request(bucket, ReadSequences(bytes[4..], count)), bytes[4 + 8 * count..]))
  }

  /** A request of an allowed size is read as it was written. */
  lemma RequestRoundTrip(r: Request, more: seq<byte>, bucketCount: nat)
    requires r.bucket < bucketCount && 0 < |r.sequences| <= MAX_REPAIR_BATCH
    ensures ReadRequest(EncodeRequest(r) + more, bucketCount) == Some((r, more))
  {
    var bytes, body := EncodeRequest(r) + more, EncodeSequences(r.sequences);
    Fields(LE(r.bucket, 2), LE(|r.sequences|, 2), body, more, [], bytes);
    ReadWord(bytes, 0, r.bucket, 2);
    ReadWord(bytes, 2, |r.sequences|, 2);
    Regroup(LE(r.bucket, 2) + LE(|r.sequences|, 2), body, more);
    assert bytes[4..] == body + more;
    SequencesRoundTrip(r.sequences, more);
  }

  function EncodeRequests(rs: seq<Request>): seq<byte>
    decreases |rs|
  {
    if rs == [] then [] else EncodeRequest(rs[0]) + EncodeRequests(rs[1..])
  }

  lemma {:induction false} FramesLength(fs: seq<Frame>)
    ensures |EncodeFrames(fs)| <= REPAIR_FRAME_MAX * |fs|
    decreases |fs|
  {
    hide EncodeFrame;
    if fs != [] {
      FramesLength(fs[1..]);
      FrameLength(fs[0]);
    }
  }

  lemma FrameLength(f: Frame)
    ensures |EncodeFrame(f)| <= REPAIR_FRAME_MAX
  {
  }
}
