// The wire formats byte by byte: where every field of a message, a datagram, a
// repair frame, a repair request, a venue packet header and an order event
// stands, least significant byte first.
module Layouts {
  import opened Bytes
  import opened Messages
  import opened RepairWire
  import opened Segments
  import opened Decoder

  // ---- numbers -----------------------------------------------------------------

  /** The bytes are the value in base 256, least significant first. */
  ghost predicate Spells(bytes: seq<byte>, value: nat, n: nat) {
    |bytes| == n && forall k | 0 <= k < n :: bytes[k] == (value / Pow256(k)) % 256
  }

  lemma SmallerThan(k: int, p: nat)
    ensures k >= 1 ==> k * p >= p
    ensures k <= -1 ==> k * p <= 0 - p
  {
  }

  lemma Quotient(x: nat, n: nat, q: nat, r: nat)
    requires r < n && x == n * q + r
    ensures x / n == q
  {
    assert n * (q - x / n) == x % n - r;
    SmallerThan(q - x / n, n);
  }

  lemma DivideTwice(v: nat, p: nat)
    requires p > 0
    ensures v / 256 / p == v / (256 * p)
  {
    var a, b := v / 256, v % 256;
    var c, d := a / p, a % p;
    assert v == (256 * p) * c + (256 * d + b);
    Quotient(v, 256 * p, c, 256 * d + b);
  }

  lemma {:induction false} LESpells(value: nat, n: nat)
    ensures Spells(LE(value, n), value, n)
    decreases n
  {
    if n > 0 {
      LESpells(value / 256, n - 1);
      var bytes, rest := LE(value, n), LE(value / 256, n - 1);
      forall k | 0 <= k < n ensures bytes[k] == (value / Pow256(k)) % 256 {
        if k > 0 {
          assert bytes[k] == rest[k - 1] == (value / 256 / Pow256(k - 1)) % 256;
          DivideTwice(value, Pow256(k - 1));
        }
      }
    }
  }

  // ---- messages and datagrams ----------------------------------------------------

  lemma MessageLayout(m: OrderMessage)
    ensures var bytes := Encode(m);
      && |bytes| == 29 && bytes[0] == m.kind && bytes[1..9] == m.symbol[..8]
      && Spells(bytes[9..17], Unsigned(m.price), 8) && Spells(bytes[17..21], m.size, 4)
      && Spells(bytes[21..29], m.timestamp, 8)
  {
    var bytes := Encode(m);
    LESpells(Unsigned(m.price), 8);
    LESpells(m.size, 4);
    LESpells(m.timestamp, 8);
    hide LE, Spells;
    Fields([m.kind], m.symbol[..8], LE(Unsigned(m.price), 8), LE(m.size, 4), LE(m.timestamp, 8), bytes);
    assert bytes[21..29] == bytes[21..] && bytes[..1][0] == bytes[0];
  }

  lemma DatagramLayout(bucket: u16, sequence: u64, payload: Payload)
    ensures var bytes := DgramEncode(bucket, sequence, payload);
      && |bytes| == 45 && bytes[0..4] == [0x44, 0x48, 0x46, 0x4d] && Spells(bytes[4..6], bucket, 2)
      && Spells(bytes[6..14], sequence, 8) && bytes[14..16] == [29, 0] && bytes[16..45] == payload
  {
    var bytes := DgramEncode(bucket, sequence, payload);
    LESpells(bucket, 2);
    LESpells(sequence, 8);
    assert LE(ORDER_MESSAGE_SIZE, 2) == [29, 0];
    Magic();
    hide LE, Spells;
    Fields(LE(MAGIC, 4), LE(bucket, 2), LE(sequence, 8), LE(ORDER_MESSAGE_SIZE, 2), payload, bytes);
    assert bytes[16..45] == bytes[16..] && bytes[0..4] == bytes[..4];
  }

  lemma Magic()
    ensures LE(MAGIC, 4) == [0x44, 0x48, 0x46, 0x4d]
  {
    assert LE(0x4d, 1) == [0x4d] && LE(0x4d46, 2) == [0x46] + LE(0x4d, 1);
    assert LE(0x4d4648, 3) == [0x48] + LE(0x4d46, 2);
  }

  // ---- the repair connection -----------------------------------------------------

  /** A frame: bucket, number, payload length, payload; nothing behind a length
      of zero. */
  lemma FrameLayout(f: Frame)
    ensures var bytes := EncodeFrame(f);
      && |bytes| >= 12 && Spells(bytes[0..2], f.bucket, 2) && Spells(bytes[2..10], f.sequence, 8)
      && (f.payload.Some? ==> bytes[10..12] == [29, 0] && bytes[12..] == f.payload.value)
      && (f.payload.None? ==> bytes[10..12] == [0, 0] && bytes[12..] == [])
  {
    var bytes := EncodeFrame(f);
    LESpells(f.bucket, 2);
    LESpells(f.sequence, 8);
    assert LE(29, 2) == [29, 0] && LE(0, 2) == [0, 0];
    hide LE, Spells;
    Fields(LE(f.bucket, 2), LE(f.sequence, 8), LE(|Body(f)|, 2), Body(f), [], bytes);
    assert bytes[0..2] == bytes[..2];
  }

  lemma Behind8(word: seq<byte>, rest: seq<byte>, at: nat)
    requires |word| == 8 && 8 <= at && at + 8 <= 8 + |rest|
    ensures (word + rest)[at..at + 8] == rest[at - 8..at]
  {
  }

  lemma FirstSequence(sequences: seq<u64>)
    requires sequences != []
    ensures EncodeSequences(sequences) == LE(sequences[0], 8) + EncodeSequences(sequences[1..])
    ensures EncodeSequences(sequences)[0..8] == LE(sequences[0], 8)
  {
    hide LE;
  }

  lemma {:induction false} SequencesLayout(sequences: seq<u64>, i: nat)
    requires i < |sequences|
    ensures Spells(EncodeSequences(sequences)[8 * i..8 * i + 8], sequences[i], 8)
    decreases i
  {
    hide Spells, LE, EncodeSequences;
    FirstSequence(sequences);
    if i == 0 {
      LESpells(sequences[0], 8);
    } else {
      SequencesLayout(sequences[1..], i - 1);
      Behind8(LE(sequences[0], 8), EncodeSequences(sequences[1..]), 8 * i);
    }
  }

  /** A request: bucket, how many numbers, and the numbers. */
  lemma RequestLayout(r: Request, i: nat)
    requires |r.sequences| < 0x1_0000 && i < |r.sequences|
    ensures var bytes := EncodeRequest(r);
      && |bytes| == 4 + 8 * |r.sequences| && Spells(bytes[0..2], r.bucket, 2)
      && Spells(bytes[2..4], |r.sequences|, 2) && Spells(bytes[4 + 8 * i..4 + 8 * i + 8], r.sequences[i], 8)
  {
    var bytes, head, body := EncodeRequest(r), LE(r.bucket, 2) + LE(|r.sequences|, 2), EncodeSequences(r.sequences);
    LESpells(r.bucket, 2);
    LESpells(|r.sequences|, 2);
    SequencesLayout(r.sequences, i);
    hide LE, Spells, EncodeSequences;
    assert bytes == head + body && |head| == 4;
    assert bytes[0..2] == LE(r.bucket, 2) && bytes[2..4] == LE(|r.sequences|, 2);
    assert bytes[4 + 8 * i..4 + 8 * i + 8] == body[8 * i..8 * i + 8];
  }

  lemma {:induction false} SequencesWritten(bytes: seq<byte>, count: nat)
    requires |bytes| >= 8 * count
    ensures EncodeSequences(ReadSequences(bytes, count)) == bytes[..8 * count]
    decreases count
  {
    if count > 0 {
      SequencesWritten(bytes[8..], count - 1);
      WrittenRead(bytes[0..8]);
      var read := ReadSequences(bytes, count);
      assert read[1..] == ReadSequences(bytes[8..], count - 1);
      assert bytes[..8 * count] == bytes[0..8] + bytes[8..][..8 * (count - 1)];
    }
  }

  /** The server takes up a request exactly when the bytes start with one it may
      answer: for a bucket it has, of 1 to 512 numbers, and there in full. */
  lemma RequestExact(bytes: seq<byte>, bucketCount: nat, r: Request, rest: seq<byte>)
    ensures ReadRequest(bytes, bucketCount) == Some((r, rest))
       <==> r.bucket < bucketCount && 1 <= |r.sequences| <= 512 && bytes == EncodeRequest(r) + rest
  {
    if ReadRequest(bytes, bucketCount) == Some((r, rest)) {
      var count := GetU16(bytes, 2);
      WrittenRead(bytes[0..2]);
      WrittenRead(bytes[2..4]);
      SequencesWritten(bytes[4..], count);
      assert bytes == bytes[0..2] + bytes[2..4] + bytes[4..][..8 * count] + bytes[4 + 8 * count..];
    } else if r.bucket < bucketCount && 1 <= |r.sequences| <= 512 && bytes == EncodeRequest(r) + rest {
      RequestRoundTrip(r, rest, bucketCount);
    }
  }

  // ---- venue packets and events --------------------------------------------------

  lemma HeaderLayout(h: Header, reserved: byte)
    ensures var bytes := EncodeHeader(h, reserved);
      && |bytes| == 40 && bytes[0] == h.version && Spells(bytes[2..4], h.protocol, 2)
      && Spells(bytes[4..8], h.channel, 4) && Spells(bytes[8..12], h.session, 4)
      && Spells(bytes[12..14], h.payloadLength, 2) && Spells(bytes[14..16], h.messageCount, 2)
      && Spells(bytes[16..24], h.streamOffset, 8) && Spells(bytes[24..32], h.firstSequence, 8)
      && Spells(bytes[32..40], h.sendTime, 8)
  {
    var bytes := EncodeHeader(h, reserved);
    LESpells(h.protocol, 2);
    LESpells(h.channel, 4);
    LESpells(h.session, 4);
    LESpells(h.payloadLength, 2);
    LESpells(h.messageCount, 2);
    LESpells(h.streamOffset, 8);
    LESpells(h.firstSequence, 8);
    LESpells(h.sendTime, 8);
    hide LE, Spells, EncodeHeader;
    assert bytes[..40] == bytes;
    FrontParts(bytes, h, reserved);
    BackParts(bytes, h, reserved);
    Within(bytes, 12, 16, 0, 2);
    Within(bytes, 12, 16, 2, 4);
    Within(bytes, 0, 2, 0, 1);
    assert bytes[0] == bytes[0..2][0];
  }

  /** A message block: its length in two bytes, and its bytes. */
  lemma BlockLayout(block: Block)
    ensures var bytes := EncodeBlock(block); Spells(bytes[0..2], |block|, 2) && bytes[2..] == block
  {
    LESpells(|block|, 2);
    hide LE, Spells;
    assert EncodeBlock(block)[0..2] == LE(|block|, 2);
  }

  lemma WordSpells(bytes: seq<byte>, at: nat, n: nat)
    requires at + n <= |bytes|
    ensures Spells(bytes[at..at + n], ReadLE(bytes[at..at + n]), n)
  {
    LESpells(ReadLE(bytes[at..at + n]), n);
    WrittenRead(bytes[at..at + n]);
  }

  /** Which bytes are which event, and where its fields stand. */
  lemma EventLayout(bytes: seq<byte>)
    ensures var e, n := EventOf(bytes), |bytes|;
      && (e.Add? <==> n >= 38 && bytes[0] == 0x61 && (bytes[1] == 0x35 || bytes[1] == 0x38))
      && (e.Delete? <==> n >= 26 && bytes[0] == 0x52)
      && (e.Modify? <==> n >= 38 && bytes[0] == 0x4d)
      && (e.Execute? <==> n >= 46 && bytes[0] == 0x4c)
      && (e.Report? <==> n >= 38 && bytes[0] == 0x54)
      && (!e.Ignored? ==> Spells(bytes[2..10], e.timestamp, 8))
      && (e.Add? || e.Delete? || e.Modify? || e.Execute? ==> Spells(bytes[18..26], e.id, 8))
      && (e.Add? ==> (e.order.ask <==> bytes[1] == 0x35) && Spells(bytes[26..30], e.order.size, 4)
                     && Spells(bytes[30..38], Unsigned(e.order.price), 8))
      && (e.Modify? || e.Execute? ==> Spells(bytes[26..30], e.size, 4) && Spells(bytes[30..38], Unsigned(e.price), 8))
      && (e.Report? ==> Spells(bytes[18..22], e.size, 4) && Spells(bytes[22..30], Unsigned(e.price), 8))
  {
    var n := |bytes|;
    if n >= 26 {
      WordSpells(bytes, 2, 8);
      WordSpells(bytes, 18, 8);
    }
    if n >= 38 {
      WordSpells(bytes, 26, 4);
      WordSpells(bytes, 30, 8);
      WordSpells(bytes, 18, 4);
      WordSpells(bytes, 22, 8);
    }
    hide Spells, ReadLE, Trimmed;
  }
}
