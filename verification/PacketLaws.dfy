// Which packets the feed handler takes in, and exactly what it takes from them,
// told by the bytes.
module PacketLaws {
  import opened Bytes
  import opened Messages
  import opened Segments
  import opened FeedHandlers

  /** Two bytes read as one number, the first of them least significant. */
  function Wide(bytes: seq<byte>, at: nat): int
    requires at + 2 <= |bytes|
  {
    (bytes[at] as int) + 256 * (bytes[at + 1] as int)
  }

  lemma WordOf(bytes: seq<byte>, at: nat)
    requires at + 2 <= |bytes|
    ensures GetU16(bytes, at) == Wide(bytes, at)
  {
    var word := bytes[at..at + 2];
    assert word[1..][1..] == [] && word[1..][0] == bytes[at + 1];
    assert ReadLE(word[1..]) == bytes[at + 1];
  }

  /** A packet is worth reading exactly when it holds a header of version 1 with
      protocol 0x8005 and announces some message. */
  lemma AcceptedExactly(packet: seq<byte>)
    ensures Accepted(packet).Some?
       <==> |packet| >= 40 && packet[0] == 1 && Wide(packet, 2) == 0x8005
            && Wide(packet, 14) > 0
    ensures Accepted(packet).Some? ==>
      var h := Accepted(packet).value;
      h.messageCount == Wide(packet, 14) && h.firstSequence == GetU64(packet, 24)
  {
    if |packet| >= 40 {
      WordOf(packet, 2);
      WordOf(packet, 14);
    }
    hide GetU16, GetU32, GetU64;
  }

  /** Every other packet leaves the counters and the messages handed on as they
      were: one that is too short or of another version changes nothing at all, one
      of another protocol sets the warning, an empty one changes nothing. */
  lemma OthersIgnored(s: Intake, packet: seq<byte>)
    requires |packet| < 40 || packet[0] != 1 || Wide(packet, 2) != 0x8005
        || Wide(packet, 14) == 0
    ensures Taken(s, packet).expected == s.expected && Taken(s, packet).captureGaps == s.captureGaps
        && Taken(s, packet).handled == s.handled
    ensures Taken(s, packet).warned
       <==> s.warned || (|packet| >= 40 && packet[0] == 1 && Wide(packet, 2) != 0x8005)
  {
    AcceptedExactly(packet);
    if |packet| >= 40 {
      WordOf(packet, 2);
    }
    hide GetU16, GetU32, GetU64, Accepted, Fresh;
  }

  /** What a packet adds: under its first number and the ones that follow, the
      messages it holds that were not passed before; the gap before it, if any was
      expected; and `expected` moves past all it announces, but never back. */
  lemma TakenExactly(s: Intake, packet: seq<byte>, h: Header)
    requires Accepted(packet) == Some(h)
    ensures var t, messages, first := Taken(s, packet), MessagesOf(packet, h), h.firstSequence;
      var known := if s.expected > first then s.expected - first else 0;
      && t.warned == s.warned
      && t.captureGaps
         == (if 0 < s.expected < first then (s.captureGaps + first - s.expected) % 0x1_0000_0000_0000_0000
             else s.captureGaps)
      && (first + h.messageCount < 0x1_0000_0000_0000_0000 ==>
            t.expected == if first + h.messageCount > s.expected then first + h.messageCount else s.expected)
      && s.handled <= t.handled
      && var added := t.handled[|s.handled|..];
         && |added| == (if known < |messages| then |messages| - known else 0)
         && forall k | 0 <= k < |added| :: added[k] == Item(first + known + k, messages[known + k])
  {
    hide Accepted, MessagesOf;
    TakenAccepted(s, packet, h);
    FreshExactly(s.expected, packet, h);
    hide Taken, Fresh;
    assert Taken(s, packet).handled[|s.handled|..] == Fresh(s.expected, packet, h);
  }

  lemma FreshExactly(expected: u64, packet: seq<byte>, h: Header)
    requires |packet| >= HEADER_BYTES
    ensures var items, messages, first := Fresh(expected, packet, h), MessagesOf(packet, h), h.firstSequence;
      var known := if expected > first then expected - first else 0;
      && |items| == (if known < |messages| then |messages| - known else 0)
      && forall k | 0 <= k < |items| :: items[k] == Item(first + known + k, messages[known + k])
  {
    hide MessagesOf;
    LaterItems(MessagesOf(packet, h), h.firstSequence,
               if expected > h.firstSequence then expected - h.firstSequence else 0);
  }

  lemma LaterItems(messages: seq<Block>, first: nat, known: nat)
    ensures var items := Numbered(messages, first)[Shorter(known, |messages|)..];
      && |items| == (if known < |messages| then |messages| - known else 0)
      && forall k | 0 <= k < |items| :: items[k] == Item(first + known + k, messages[known + k])
  {
    hide Numbered;
  }

  /** A packet of protocol 0x8005 written whole, of however many messages and
      whatever follows it: exactly the messages numbered from `expected` on are
      handed on, in order, and `expected` is past them all. */
  lemma WholePacketTaken(s: Intake, h: Header, reserved: byte, messages: seq<Block>, trailer: seq<byte>)
    requires h.version == 1 && h.protocol == 0x8005 && h.messageCount == |messages| > 0
    requires h.payloadLength == |EncodeBlocks(messages)| && h.firstSequence + |messages| < 0x1_0000_0000_0000_0000
    ensures var t := Taken(s, EncodeHeader(h, reserved) + EncodeBlocks(messages) + trailer);
      var first := h.firstSequence;
      var known := if s.expected > first then s.expected - first else 0;
      && t.expected == (if first + |messages| > s.expected then first + |messages| else s.expected)
      && t.captureGaps
         == (if 0 < s.expected < first then (s.captureGaps + first - s.expected) % 0x1_0000_0000_0000_0000
             else s.captureGaps)
      && s.handled <= t.handled
      && var added := t.handled[|s.handled|..];
         && |added| == (if known < |messages| then |messages| - known else 0)
         && forall k | 0 <= k < |added| :: added[k] == Item(first + known + k, messages[known + k])
  {
    var packet := EncodeHeader(h, reserved) + EncodeBlocks(messages) + trailer;
    hide DecodeHeader, EncodeHeader, EncodeBlocks, MessagesOf, Taken;
    PacketRoundTrip(h, reserved, messages, trailer);
    TakenExactly(s, packet, h);
  }

  /** A packet's messages are the blocks of its payload alone: of as many bytes
      behind the header as the header announces, or as are there; at most as many
      as it announces, and up to the first that is not whole. */
  lemma MessagesExactly(packet: seq<byte>, h: Header, messages: seq<Block>)
    requires |packet| >= 40
    ensures MessagesOf(packet, h) == messages <==>
      var payload := packet[40..if |packet| < h.payloadLength + 40 then |packet| else h.payloadLength + 40];
      var read := |EncodeBlocks(messages)|;
      && |messages| <= h.messageCount && EncodeBlocks(messages) <= payload
      && (|messages| == h.messageCount || |payload| < read + 2
          || |payload| < read + 2 + Wide(payload, read))
  {
    var payload := packet[40..if |packet| < h.payloadLength + 40 then |packet| else h.payloadLength + 40];
    BlocksExact(payload, h.messageCount, messages);
    if EncodeBlocks(messages) <= payload && |payload| >= |EncodeBlocks(messages)| + 2 {
      WordOf(payload[|EncodeBlocks(messages)|..], 0);
    }
    hide GetU16, Blocks, EncodeBlocks;
  }
}
