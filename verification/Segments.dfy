// The venue's feed packets: a fixed header, then length-prefixed messages.
module Segments {
  import opened Bytes
  import opened Messages

  const HEADER_BYTES: nat := 40
  const VERSION: byte := 1

  datatype Header = Header(
    version: byte, protocol: u16, channel: u32, session: u32, payloadLength: u16, messageCount: u16,
    streamOffset: u64, firstSequence: u64, sendTime: u64)

  function DecodeHeader(packet: seq<byte>): (h: Option<Header>)
    ensures h.Some? ==> |packet| >= HEADER_BYTES && h.value.version == VERSION
  {
    if |packet| < HEADER_BYTES || packet[0] != VERSION then None
    else
      Some(Header(packet[0], GetU16(packet, 2), GetU32(packet, 4), GetU32(packet, 8), GetU16(packet, 12),
                  GetU16(packet, 14), GetU64(packet, 16), GetU64(packet, 24), GetU64(packet, 32)))
  }

  /** The layout the offsets imply; the second byte carries nothing. */
  function EncodeHeader(h: Header, reserved: byte): (bytes: seq<byte>)
    ensures |bytes| == HEADER_BYTES
  {
    Front(h, reserved) + Back(h)
  }

  function Front(h: Header, reserved: byte): (bytes: seq<byte>)
    ensures |bytes| == 12
  {
    [h.version, reserved] + LE(h.protocol, 2) + LE(h.channel, 4) + LE(h.session, 4)
  }

  function Back(h: Header): (bytes: seq<byte>)
    ensures |bytes| == 28
  {
    (LE(h.payloadLength, 2) + LE(h.messageCount, 2)) + LE(h.streamOffset, 8) + LE(h.firstSequence, 8)
        + LE(h.sendTime, 8)
  }

  lemma Within(bytes: seq<byte>, a: nat, b: nat, i: nat, j: nat)
    requires a <= b <= |bytes| && i <= j <= b - a
    ensures bytes[a..b][i..j] == bytes[a + i..a + j]
  {
    var x, y := bytes[a..b][i..j], bytes[a + i..a + j];
    assert |x| == |y| && forall k | 0 <= k < |x| :: x[k] == bytes[a + i + k] == y[k];
  }

  lemma HeaderRead(packet: seq<byte>, h: Header, reserved: byte)
    requires |packet| >= HEADER_BYTES && packet[..40] == EncodeHeader(h, reserved) && h.version == VERSION
    ensures DecodeHeader(packet) == Some(h)
  {
    FrontRead(packet, h, reserved);
    BackRead(packet, h, reserved);
    hide EncodeHeader, GetU16, GetU32, GetU64;
  }

  lemma Four(a: seq<byte>, b: seq<byte>, c: seq<byte>, d: seq<byte>, all: seq<byte>)
    requires all == a + b + c + d
    ensures all[0..|a|] == a && all[|a|..|a| + |b|] == b && all[|a| + |b|..|a| + |b| + |c|] == c
    ensures all[|a| + |b| + |c|..|all|] == d
  {
  }

  lemma HeaderBack(packet: seq<byte>, h: Header, reserved: byte)
    requires |packet| >= HEADER_BYTES && packet[..40] == EncodeHeader(h, reserved)
    ensures packet[12..40] == Back(h)
  {
    hide Front, Back;
    assert packet[12..40] == packet[..40][12..];
  }

  lemma BackParts(packet: seq<byte>, h: Header, reserved: byte)
    requires |packet| >= HEADER_BYTES && packet[..40] == EncodeHeader(h, reserved)
    ensures packet[12..16] == LE(h.payloadLength, 2) + LE(h.messageCount, 2)
    ensures packet[16..24] == LE(h.streamOffset, 8) && packet[24..32] == LE(h.firstSequence, 8)
    ensures packet[32..40] == LE(h.sendTime, 8)
  {
    hide LE, EncodeHeader;
    HeaderBack(packet, h, reserved);
    var lengths := LE(h.payloadLength, 2) + LE(h.messageCount, 2);
    Four(lengths, LE(h.streamOffset, 8), LE(h.firstSequence, 8), LE(h.sendTime, 8), packet[12..40]);
    Within(packet, 12, 40, 0, 4);
    Within(packet, 12, 40, 4, 12);
    Within(packet, 12, 40, 12, 20);
    Within(packet, 12, 40, 20, 28);
  }

  lemma BackRead(packet: seq<byte>, h: Header, reserved: byte)
    requires |packet| >= HEADER_BYTES && packet[..40] == EncodeHeader(h, reserved)
    ensures GetU16(packet, 12) == h.payloadLength && GetU16(packet, 14) == h.messageCount
    ensures GetU64(packet, 16) == h.streamOffset && GetU64(packet, 24) == h.firstSequence
        && GetU64(packet, 32) == h.sendTime
  {
    hide EncodeHeader, LE, GetU16, GetU32, GetU64;
    BackParts(packet, h, reserved);
    Within(packet, 12, 16, 0, 2);
    Within(packet, 12, 16, 2, 4);
    ReadWord(packet, 12, h.payloadLength, 2);
    ReadWord(packet, 14, h.messageCount, 2);
    ReadWord(packet, 16, h.streamOffset, 8);
    ReadWord(packet, 24, h.firstSequence, 8);
    ReadWord(packet, 32, h.sendTime, 8);
  }

  lemma HeaderFront(packet: seq<byte>, h: Header, reserved: byte)
    requires |packet| >= HEADER_BYTES && packet[..40] == EncodeHeader(h, reserved)
    ensures packet[0..12] == Front(h, reserved)
  {
    hide Front, Back;
    assert packet[0..12] == packet[..40][..12];
  }

  lemma FrontParts(packet: seq<byte>, h: Header, reserved: byte)
    requires |packet| >= HEADER_BYTES && packet[..40] == EncodeHeader(h, reserved)
    ensures packet[0..2] == [h.version, reserved] && packet[2..4] == LE(h.protocol, 2)
    ensures packet[4..8] == LE(h.channel, 4) && packet[8..12] == LE(h.session, 4)
  {
    hide LE, EncodeHeader;
    HeaderFront(packet, h, reserved);
    Four([h.version, reserved], LE(h.protocol, 2), LE(h.channel, 4), LE(h.session, 4), packet[0..12]);
    Within(packet, 0, 12, 0, 2);
    Within(packet, 0, 12, 2, 4);
    Within(packet, 0, 12, 4, 8);
    Within(packet, 0, 12, 8, 12);
  }

  lemma FrontRead(packet: seq<byte>, h: Header, reserved: byte)
    requires |packet| >= HEADER_BYTES && packet[..40] == EncodeHeader(h, reserved)
    ensures packet[0] == h.version
    ensures GetU16(packet, 2) == h.protocol && GetU32(packet, 4) == h.channel && GetU32(packet, 8) == h.session
  {
    hide EncodeHeader, LE, GetU16, GetU32;
    FrontParts(packet, h, reserved);
    assert packet[0] == packet[0..2][0];
    ReadWord(packet, 2, h.protocol, 2);
    ReadWord(packet, 4, h.channel, 4);
    ReadWord(packet, 8, h.session, 4);
  }

  lemma HeaderWritten(packet: seq<byte>)
    requires DecodeHeader(packet).Some?
    ensures packet[..40] == EncodeHeader(DecodeHeader(packet).value, packet[1])
  {
    FrontWritten(packet);
    BackWritten(packet);
    Cut(packet, 12, 40);
    hide Front, Back;
  }

  lemma FrontWritten(packet: seq<byte>)
    requires DecodeHeader(packet).Some?
    ensures packet[..12] == Front(DecodeHeader(packet).value, packet[1])
  {
    WrittenRead(packet[2..4]);
    WrittenRead(packet[4..8]);
    WrittenRead(packet[8..12]);
    assert packet[..12] == [packet[0], packet[1]] + packet[2..4] + packet[4..8] + packet[8..12];
  }

  lemma BackWritten(packet: seq<byte>)
    requires DecodeHeader(packet).Some?
    ensures packet[12..40] == Back(DecodeHeader(packet).value)
  {
    WrittenRead(packet[12..14]);
    WrittenRead(packet[14..16]);
    WrittenRead(packet[16..24]);
    WrittenRead(packet[24..32]);
    WrittenRead(packet[32..40]);
    hide LE, DecodeHeader, ReadLE, Pow256;
    Join(packet, 12, 14, 16);
    Join(packet, 12, 16, 24);
    Join(packet, 12, 24, 32);
    Join(packet, 12, 32, 40);
  }

  lemma Join(bytes: seq<byte>, i: nat, j: nat, k: nat)
    requires i <= j <= k <= |bytes|
    ensures bytes[i..k] == bytes[i..j] + bytes[j..k]
  {
  }

  /** A packet is accepted with header h exactly when it is version 1 and its
      first 40 bytes spell h. */
  lemma HeaderExact(packet: seq<byte>, h: Header)
    ensures DecodeHeader(packet) == Some(h) <==>
            |packet| >= HEADER_BYTES && h.version == VERSION && packet[..40] == EncodeHeader(h, packet[1])
  {
    if DecodeHeader(packet) == Some(h) {
      HeaderWritten(packet);
    } else if |packet| >= HEADER_BYTES && h.version == VERSION && packet[..40] == EncodeHeader(h, packet[1]) {
      HeaderRead(packet, h, packet[1]);
    }
  }

  // ---- message blocks -------------------------------------------------------

  type Block = b: seq<byte> | |b| < 0x1_0000 witness []

  function EncodeBlock(block: Block): seq<byte> {
    LE(|block|, 2) + block
  }

  function EncodeBlocks(blocks: seq<Block>): seq<byte> {
    if blocks == [] then [] else EncodeBlock(blocks[0]) + EncodeBlocks(blocks[1..])
  }

  /** A whole block starts the data. */
  predicate BlockReady(data: seq<byte>) {
    |data| >= 2 && 2 + GetU16(data, 0) <= |data|
  }

  /** At most `count` blocks off the front of the data, stopping before the
      first that is not whole. */
  function Blocks(data: seq<byte>, count: nat): (blocks: seq<Block>)
    ensures |blocks| <= count
    decreases count
  {
    if count == 0 || !BlockReady(data) then []
    else
      var n := GetU16(data, 0);
      [data[2..2 + n]] + Blocks(data[2 + n..], count - 1)
  }

  lemma BlockRead(block: Block, rest: seq<byte>)
    ensures var data := EncodeBlock(block) + rest;
      BlockReady(data) && GetU16(data, 0) == |block| && data[2..2 + |block|] == block && data[2 + |block|..] == rest
  {
    var data := EncodeBlock(block) + rest;
    assert data[0..2] == LE(|block|, 2);
    ReadWord(data, 0, |block|, 2);
  }

  lemma BlockWritten(data: seq<byte>)
    requires BlockReady(data)
    ensures data == EncodeBlock(data[2..2 + GetU16(data, 0)]) + data[2 + GetU16(data, 0)..]
  {
    WrittenRead(data[0..2]);
    assert data == data[0..2] + data[2..2 + GetU16(data, 0)] + data[2 + GetU16(data, 0)..];
  }

  /** The blocks fill the front of the data, and no further one is allowed or
      whole. */
  ghost predicate Reads(data: seq<byte>, count: nat, blocks: seq<Block>) {
    && |blocks| <= count
    && EncodeBlocks(blocks) <= data
    && (|blocks| == count || !BlockReady(data[|EncodeBlocks(blocks)|..]))
  }

  /** Walking the data finds the one block list that reads it. */
  lemma {:induction false} BlocksExact(data: seq<byte>, count: nat, blocks: seq<Block>)
    ensures Blocks(data, count) == blocks <==> Reads(data, count, blocks)
    decreases count
  {
    if count == 0 {
      assert blocks == [] ==> EncodeBlocks(blocks) <= data;
    } else if !BlockReady(data) {
      assert data[0..] == data;
      if Reads(data, count, blocks) && blocks != [] {
        var rest := data[|EncodeBlock(blocks[0])|..];
        assert data == EncodeBlock(blocks[0]) + rest;
        BlockRead(blocks[0], rest);
      }
    } else {
      BlocksExactAfter(data, count, blocks);
    }
  }

  lemma NoBlocksRead(data: seq<byte>, count: nat)
    requires count > 0 && BlockReady(data)
    ensures !Reads(data, count, [])
  {
    assert data[0..] == data;
    hide BlockReady;
  }

  lemma BlocksStep(data: seq<byte>, count: nat)
    requires count > 0 && BlockReady(data)
    ensures var n := GetU16(data, 0); Blocks(data, count) == [data[2..2 + n]] + Blocks(data[2 + n..], count - 1)
  {
    hide GetU16;
  }

  lemma ReadyLength(data: seq<byte>)
    requires BlockReady(data)
    ensures |data| >= 2 && |data| >= 2 + GetU16(data, 0)
  {
    hide GetU16;
  }

  lemma {:induction false} BlocksExactAfter(data: seq<byte>, count: nat, blocks: seq<Block>)
    requires count > 0 && BlockReady(data)
    ensures Blocks(data, count) == blocks <==> Reads(data, count, blocks)
    decreases count, 0
  {
    hide BlockReady, Reads, Blocks, GetU16, EncodeBlocks;
    ReadyLength(data);
    var n := GetU16(data, 0);
    BlocksStep(data, count);
    if blocks == [] {
      NoBlocksRead(data, count);
    } else {
      BlocksExact(data[2 + n..], count - 1, blocks[1..]);
      ReadsNext(data, count, blocks);
      assert blocks == [blocks[0]] + blocks[1..];
    }
  }

  lemma ReadsNext(data: seq<byte>, count: nat, blocks: seq<Block>)
    requires count > 0 && BlockReady(data) && blocks != []
    ensures var n := GetU16(data, 0);
      Reads(data, count, blocks) <==> blocks[0] == data[2..2 + n] && Reads(data[2 + n..], count - 1, blocks[1..])
  {
    var n := GetU16(data, 0);
    BlockWritten(data);
    if EncodeBlocks(blocks) <= data {
      FirstBlock(data, blocks);
    }
    var code, more := EncodeBlock(data[2..2 + n]), EncodeBlocks(blocks[1..]);
    Behind(code, more, data[2 + n..]);
    assert blocks[0] == data[2..2 + n] ==> EncodeBlocks(blocks) == code + more;
    hide BlockReady, EncodeBlock, EncodeBlocks;
  }

  lemma FirstBlock(data: seq<byte>, blocks: seq<Block>)
    requires BlockReady(data) && blocks != [] && EncodeBlocks(blocks) <= data
    ensures blocks[0] == data[2..2 + GetU16(data, 0)]
  {
    var other := data[|EncodeBlock(blocks[0])|..];
    assert data == EncodeBlock(blocks[0]) + other;
    BlockRead(blocks[0], other);
  }

  /** Dropping a common front changes neither prefixes nor what follows them. */
  lemma Behind(front: seq<byte>, part: seq<byte>, rest: seq<byte>)
    ensures front + part <= front + rest <==> part <= rest
    ensures part <= rest ==> (front + rest)[|front + part|..] == rest[|part|..]
  {
    assert (front + part)[|front|..] == part && (front + rest)[|front|..] == rest;
    if part <= rest {
      assert rest == part + rest[|part|..];
      assert front + rest == (front + part) + rest[|part|..];
    }
  }

  /** A block that starts a part of the data starts all of it. */
  lemma PartReady(data: seq<byte>, length: nat)
    requires length <= |data| && BlockReady(data[..length])
    ensures var n: nat := GetU16(data, 0); var part := data[..length];
      && BlockReady(data) && GetU16(part, 0) == n && 2 + n <= length
      && part[2..2 + n] == data[2..2 + n] && part[2 + n..] == data[2 + n..][..length - 2 - n]
  {
    var part := data[..length];
    assert part == data[0..length] && part[0..2] == data[0..2];
    hide ReadLE;
    var n: nat := GetU16(data, 0);
    Within(data, 0, length, 2, 2 + n);
    Within(data, 0, length, 2 + n, length);
    Within(data, 2 + n, |data|, 0, length - 2 - n);
  }

  lemma NoBlocks(data: seq<byte>, count: nat)
    requires count == 0 || !BlockReady(data)
    ensures Blocks(data, count) == []
  {
  }

  /** Losing the tail of the data loses trailing blocks and nothing else. */
  lemma {:induction false} TruncatedBlocks(data: seq<byte>, count: nat, length: nat)
    requires length <= |data|
    ensures Blocks(data[..length], count) <= Blocks(data, count)
    decreases count
  {
    hide Blocks, BlockReady, GetU16;
    if count > 0 && BlockReady(data[..length]) {
      PartReady(data, length);
      BlocksStep(data, count);
      BlocksStep(data[..length], count);
      ReadyLength(data[..length]);
      var n: nat := GetU16(data, 0);
      TruncatedBlocks(data[2 + n..], count - 1, length - 2 - n);
    } else {
      NoBlocks(data[..length], count);
    }
  }

  function Shorter(a: nat, b: nat): nat {
    if a <= b then a else b
  }

  /** The messages a packet delivers under its header. */
  function MessagesOf(packet: seq<byte>, h: Header): (messages: seq<Block>)
    requires |packet| >= HEADER_BYTES
    ensures |messages| <= h.messageCount
  {
    Blocks(packet[HEADER_BYTES..Shorter(|packet|, h.payloadLength + HEADER_BYTES)], h.messageCount)
  }

  /** A packet written whole is read back whole, whatever follows it. */
  lemma PacketRoundTrip(h: Header, reserved: byte, messages: seq<Block>, trailer: seq<byte>)
    requires h.version == VERSION && h.messageCount == |messages| && h.payloadLength == |EncodeBlocks(messages)|
    ensures var packet := EncodeHeader(h, reserved) + EncodeBlocks(messages) + trailer;
      DecodeHeader(packet) == Some(h) && MessagesOf(packet, h) == messages
  {
    var packet := EncodeHeader(h, reserved) + EncodeBlocks(messages) + trailer;
    assert packet[..40] == EncodeHeader(h, reserved);
    HeaderRead(packet, h, reserved);
    var end := h.payloadLength + HEADER_BYTES;
    assert Shorter(|packet|, end) == end;
    assert packet[40..end] == EncodeBlocks(messages);
    BlocksExact(packet[40..end], h.messageCount, messages);
  }

  /** A packet cut off anywhere behind its header yields the first of its
      messages. */
  lemma CutPacket(packet: seq<byte>, h: Header, length: nat)
    requires HEADER_BYTES <= length <= |packet|
    ensures MessagesOf(packet[..length], h) <= MessagesOf(packet, h)
  {
    var whole := Shorter(|packet|, h.payloadLength + HEADER_BYTES);
    var end := Shorter(length, h.payloadLength + HEADER_BYTES);
    assert packet[..length][HEADER_BYTES..end] == packet[HEADER_BYTES..whole][..end - HEADER_BYTES];
    TruncatedBlocks(packet[HEADER_BYTES..whole], h.messageCount, end - HEADER_BYTES);
  }

  /** The messages still ahead of an offset. */
  function Ahead(packet: seq<byte>, offset: nat, end: nat, count: nat): seq<Block>
    requires offset <= end <= |packet|
  {
    Blocks(packet[offset..end], count)
  }

  /** Where the walk stops, nothing is ahead. */
  lemma NothingAhead(packet: seq<byte>, offset: nat, end: nat, count: nat)
    requires offset <= end <= |packet|
    requires count == 0 || offset + 2 > end || offset + 2 + GetU16(packet, offset) > end
    ensures Ahead(packet, offset, end, count) == []
  {
    if offset + 2 <= end {
      Within(packet, offset, end, 0, 2);
    }
  }

  /** Elsewhere, one message moves from those ahead to those visited. */
  lemma Visited(done: seq<Block>, packet: seq<byte>, offset: nat, end: nat, count: nat)
    requires offset + 2 <= end <= |packet| && count > 0 && offset + 2 + GetU16(packet, offset) <= end
    ensures var next := offset + 2 + GetU16(packet, offset);
      done + Ahead(packet, offset, end, count)
      == (done + [packet[offset + 2..next]]) + Ahead(packet, next, end, count - 1)
  {
    var data, next := packet[offset..end], offset + 2 + GetU16(packet, offset);
    Within(packet, offset, end, 0, 2);
    Within(packet, offset, end, 2, next - offset);
    Within(packet, offset, end, next - offset, |data|);
    assert BlockReady(data) && GetU16(data, 0) == GetU16(packet, offset);
    BlocksStep(data, count);
    hide Blocks, GetU16, BlockReady;
  }

  /** Visits the messages of a packet in order. */
  method ForEachMessage(packet: seq<byte>, h: Header) returns (messages: seq<Block>)
    requires |packet| >= HEADER_BYTES
    ensures messages == MessagesOf(packet, h)
  {
    var offset: nat := HEADER_BYTES;
    var end := Shorter(|packet|, h.payloadLength + HEADER_BYTES);
    messages := [];
    var i := 0;
    assert Ahead(packet, offset, end, h.messageCount) == MessagesOf(packet, h);
    hide GetU16, Ahead, MessagesOf;
    while i < h.messageCount && offset + 2 <= end
      invariant i <= h.messageCount && HEADER_BYTES <= offset <= end
      invariant messages + Ahead(packet, offset, end, h.messageCount - i) == MessagesOf(packet, h)
    {
      var length := GetU16(packet, offset);
      if offset + 2 + length > end {
        break;
      }
      Visited(messages, packet, offset, end, h.messageCount - i);
      offset := offset + 2;
      messages := messages + [packet[offset..offset + length]];
      offset := offset + length;
      i := i + 1;
    }
    NothingAhead(packet, offset, end, h.messageCount - i);
  }
}
