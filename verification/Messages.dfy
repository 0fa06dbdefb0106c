// The neutral order message, its 29-byte wire form, and the datagram that
// carries one message of one bucket under one sequence number.
module Messages {
  import opened Bytes
  import Hashing

  /** A fixed nine-byte character buffer. */
  type Symbol = s: seq<byte> | |s| == 9 witness [0, 0, 0, 0, 0, 0, 0, 0, 0]

  const BID: byte := 66
  const ASK: byte := 83
  const TRADE: byte := 84
  const END: byte := 69

  const NO_SYMBOL: Symbol := [0, 0, 0, 0, 0, 0, 0, 0, 0]

  datatype OrderMessage = OrderMessage(kind: byte, symbol: Symbol, price: i64, size: u32, timestamp: u64)

  datatype Option<+T> = None | Some(value: T)

  const END_MESSAGE: OrderMessage := OrderMessage(END, NO_SYMBOL, 0, 0, 0)

  const ORDER_MESSAGE_SIZE: nat := 29
  const HDR_BYTES: nat := 16
  const MAGIC: u32 := 0x4d464844

  type Payload = p: seq<byte> | |p| == 29
    witness [0, 0, 0, 0, 0, 0, 0, 0, 0, 0, 0, 0, 0, 0, 0, 0, 0, 0, 0, 0, 0, 0, 0, 0, 0, 0, 0, 0, 0]

  /** The characters before the first NUL: what the C string functions see. */
  function CString(chars: seq<byte>): (r: seq<byte>)
    ensures |r| <= |chars| && r == chars[..|r|]
    ensures forall k | 0 <= k < |r| :: r[k] != 0
    ensures |r| < |chars| ==> chars[|r|] == 0
  {
    if chars == [] || chars[0] == 0 then [] else [chars[0]] + CString(chars[1..])
  }

  /** The last byte of the buffer is the NUL the C string functions rely on. */
  predicate Terminated(symbol: Symbol) {
    symbol[8] == 0
  }

  function BucketOf(symbol: Symbol, bucketCount: nat): (bucket: nat)
    requires bucketCount > 0
    ensures bucket < bucketCount
  {
    Hashing.StirAll(Hashing.FNV_BASIS, CString(symbol)) % bucketCount
  }

  /** Two's complement view of a signed price, and back. */
  function Unsigned(price: i64): u64 {
    if price >= 0 then price else price + 0x1_0000_0000_0000_0000
  }

  function Signed(word: u64): i64 {
    if word < 0x8000_0000_0000_0000 then word else word - 0x1_0000_0000_0000_0000
  }

  function GetU16(bytes: seq<byte>, at: nat): u16
    requires at + 2 <= |bytes|
  {
    Fits(bytes[at..at + 2]);
    ReadLE(bytes[at..at + 2])
  }

  function GetU32(bytes: seq<byte>, at: nat): u32
    requires at + 4 <= |bytes|
  {
    Fits(bytes[at..at + 4]);
    ReadLE(bytes[at..at + 4])
  }

  function GetU64(bytes: seq<byte>, at: nat): u64
    requires at + 8 <= |bytes|
  {
    Fits(bytes[at..at + 8]);
    ReadLE(bytes[at..at + 8])
  }

  lemma Fits(bytes: seq<byte>)
    ensures ReadLE(bytes) < Pow256(|bytes|)
    ensures |bytes| == 2 ==> ReadLE(bytes) < 0x1_0000
    ensures |bytes| == 4 ==> ReadLE(bytes) < 0x1_0000_0000
    ensures |bytes| == 8 ==> ReadLE(bytes) < 0x1_0000_0000_0000_0000
  {
    WrittenRead(bytes);
    Widths();
  }

  /** A word written in n bytes and followed by anything is read back. */
  lemma ReadWord(bytes: seq<byte>, at: nat, value: nat, n: nat)
    requires at + n <= |bytes| && bytes[at..at + n] == LE(value, n)
    ensures n == 2 && value < 0x1_0000 ==> GetU16(bytes, at) == value
    ensures n == 4 && value < 0x1_0000_0000 ==> GetU32(bytes, at) == value
    ensures n == 8 && value < 0x1_0000_0000_0000_0000 ==> GetU64(bytes, at) == value
  {
    ReadWritten(value, n);
    Widths();
  }

  function Encode(m: OrderMessage): Payload {
    hide LE, Unsigned;
    [m.kind] + m.symbol[..8] + LE(Unsigned(m.price), 8) + LE(m.size, 4) + LE(m.timestamp, 8)
  }

  function Decode(bytes: Payload): OrderMessage {
    OrderMessage(bytes[0], bytes[1..9] + [0], Signed(GetU64(bytes, 9)), GetU32(bytes, 17), GetU64(bytes, 21))
  }

  /** The wire keeps every field of a message but the ninth symbol byte, which
      always arrives as the terminator. */
  lemma WireKeeps(m: OrderMessage)
    ensures Decode(Encode(m)) == m.(symbol := m.symbol[..8] + [0])
  {
    var bytes := Encode(m);
    Fields([m.kind], m.symbol[..8], LE(Unsigned(m.price), 8), LE(m.size, 4), LE(m.timestamp, 8), bytes);
    ReadWord(bytes, 9, Unsigned(m.price), 8);
    ReadWord(bytes, 17, m.size, 4);
    ReadWord(bytes, 21, m.timestamp, 8);
  }

  /** A round trip over the wire is exact for terminated symbols, and for no
      others. */
  lemma RoundTrip(m: OrderMessage)
    ensures Decode(Encode(m)) == m <==> Terminated(m.symbol)
  {
    WireKeeps(m);
    assert m.symbol == m.symbol[..8] + [m.symbol[8]];
  }

  /** Every 29-byte string is the wire form of the message it decodes to. */
  lemma WireRoundTrip(bytes: Payload)
    ensures Encode(Decode(bytes)) == bytes
  {
    WrittenRead(bytes[9..17]);
    WrittenRead(bytes[17..21]);
    WrittenRead(bytes[21..29]);
    assert bytes == [bytes[0]] + bytes[1..9] + bytes[9..17] + bytes[17..21] + bytes[21..29];
  }

  datatype Dgram = Dgram(bucket: u16, sequence: u64, message: OrderMessage)

  function DgramEncode(bucket: u16, sequence: u64, payload: Payload): (bytes: seq<byte>)
    ensures |bytes| == HDR_BYTES + ORDER_MESSAGE_SIZE
  {
    LE(MAGIC, 4) + LE(bucket, 2) + LE(sequence, 8) + LE(ORDER_MESSAGE_SIZE, 2) + payload
  }

  function DgramDecode(bytes: seq<byte>): Option<Dgram> {
    if |bytes| < HDR_BYTES + ORDER_MESSAGE_SIZE || GetU32(bytes, 0) != MAGIC then None
    else if GetU16(bytes, 14) != ORDER_MESSAGE_SIZE then None
    else Some(Dgram(GetU16(bytes, 4), GetU64(bytes, 6), Decode(bytes[16..45])))
  }

  /** Five fields laid end to end can be cut apart again. */
  lemma Fields(a: seq<byte>, b: seq<byte>, c: seq<byte>, d: seq<byte>, e: seq<byte>, all: seq<byte>)
    requires all == a + b + c + d + e
    ensures all[..|a|] == a
    ensures all[|a|..|a| + |b|] == b
    ensures all[|a| + |b|..|a| + |b| + |c|] == c
    ensures all[|a| + |b| + |c|..|a| + |b| + |c| + |d|] == d
    ensures all[|a| + |b| + |c| + |d|..] == e
  {
  }

  lemma Cut(bytes: seq<byte>, i: nat, j: nat)
    requires i <= j <= |bytes|
    ensures bytes[..j] == bytes[..i] + bytes[i..j]
  {
  }

  lemma Rejoin(bytes: seq<byte>, i: nat, j: nat, k: nat, l: nat, m: nat)
    requires i <= j <= k <= l <= m <= |bytes|
    ensures bytes[..m] == bytes[0..i] + bytes[i..j] + bytes[j..k] + bytes[k..l] + bytes[l..m]
  {
    Cut(bytes, i, j);
    Cut(bytes, j, k);
    Cut(bytes, k, l);
    Cut(bytes, l, m);
  }

  lemma Prefix(bytes: seq<byte>, head: seq<byte>, i: nat, j: nat)
    requires head <= bytes && i <= j <= |head|
    ensures bytes[i..j] == head[i..j]
  {
  }

  /** A well-formed datagram, and anything after it, decodes to what was sent. */
  lemma DgramRead(bytes: seq<byte>, bucket: u16, sequence: u64, payload: Payload)
    requires |bytes| >= 45 && bytes[..45] == DgramEncode(bucket, sequence, payload)
    ensures DgramDecode(bytes) == Some(Dgram(bucket, sequence, Decode(payload)))
  {
    var head := bytes[..45];
    Fields(LE(MAGIC, 4), LE(bucket, 2), LE(sequence, 8), LE(ORDER_MESSAGE_SIZE, 2), payload, head);
    Prefix(bytes, head, 0, 4);
    Prefix(bytes, head, 4, 6);
    Prefix(bytes, head, 6, 14);
    Prefix(bytes, head, 14, 16);
    Prefix(bytes, head, 16, 45);
    ReadWord(bytes, 0, MAGIC, 4);
    ReadWord(bytes, 4, bucket, 2);
    ReadWord(bytes, 6, sequence, 8);
    ReadWord(bytes, 14, ORDER_MESSAGE_SIZE, 2);
  }

  /** An accepted byte string starts with the encoding of what it decodes to. */
  lemma DgramAccepted(bytes: seq<byte>)
    requires DgramDecode(bytes).Some?
    ensures var d := DgramDecode(bytes).value;
      bytes[..45] == DgramEncode(d.bucket, d.sequence, Encode(d.message)) && Terminated(d.message.symbol)
  {
    WrittenRead(bytes[0..4]);
    WrittenRead(bytes[4..6]);
    WrittenRead(bytes[6..14]);
    WrittenRead(bytes[14..16]);
    WireRoundTrip(bytes[16..45]);
    Rejoin(bytes, 4, 6, 14, 16, 45);
  }

  /** A byte string is accepted as datagram d exactly when its first 45 bytes
      are the encoding of d and the symbol of d is terminated. */
  lemma DgramExact(bytes: seq<byte>, d: Dgram)
    ensures DgramDecode(bytes) == Some(d) <==>
            |bytes| >= 45 && bytes[..45] == DgramEncode(d.bucket, d.sequence, Encode(d.message))
                && Terminated(d.message.symbol)
  {
    if DgramDecode(bytes) == Some(d) {
      DgramAccepted(bytes);
    } else if |bytes| >= 45 && bytes[..45] == DgramEncode(d.bucket, d.sequence, Encode(d.message)) {
      DgramRead(bytes, d.bucket, d.sequence, Encode(d.message));
      RoundTrip(d.message);
    }
  }

  /** `buffer` with `bytes` written over it from `at` on. */
  function Overwrite(buffer: seq<byte>, at: nat, bytes: seq<byte>): seq<byte>
    requires at + |bytes| <= |buffer|
  {
    buffer[..at] + bytes + buffer[at + |bytes|..]
  }

  /** Stores the low n bytes of value: the put_u16, put_u32 and put_u64 of the
      wire formats, at n == 2, 4 and 8. */
  method Put(buffer: array<byte>, at: nat, value: nat, n: nat)
    requires at + n <= buffer.Length
    modifies buffer
    ensures buffer[..] == Overwrite(old(buffer[..]), at, LE(value, n))
    decreases n
  {
    if n > 0 {
      buffer[at] := value % 256;
      Put(buffer, at + 1, value / 256, n - 1);
    }
  }

  method Copy(buffer: array<byte>, at: nat, bytes: seq<byte>)
    requires at + |bytes| <= buffer.Length
    modifies buffer
    ensures buffer[..] == Overwrite(old(buffer[..]), at, bytes)
  {
    forall k | 0 <= k < |bytes| {
      buffer[at + k] := bytes[k];
    }
  }

  lemma OverwriteOn(buffer: seq<byte>, a: seq<byte>, b: seq<byte>)
    requires |a| + |b| <= |buffer|
    ensures Overwrite(Overwrite(buffer, 0, a), |a|, b) == Overwrite(buffer, 0, a + b)
  {
  }

  method OrderMessageEncode(buffer: array<byte>, m: OrderMessage)
    requires buffer.Length >= ORDER_MESSAGE_SIZE
    modifies buffer
    ensures buffer[..] == Overwrite(old(buffer[..]), 0, Encode(m))
  {
    ghost var was := buffer[..];
    buffer[0] := m.kind;
    assert buffer[..] == Overwrite(was, 0, [m.kind]);
    OverwriteOn(was, [m.kind], m.symbol[..8]);
    Copy(buffer, 1, m.symbol[..8]);
    OverwriteOn(was, [m.kind] + m.symbol[..8], LE(Unsigned(m.price), 8));
    Put(buffer, 9, Unsigned(m.price), 8);
    OverwriteOn(was, [m.kind] + m.symbol[..8] + LE(Unsigned(m.price), 8), LE(m.size, 4));
    Put(buffer, 17, m.size, 4);
    OverwriteOn(was, [m.kind] + m.symbol[..8] + LE(Unsigned(m.price), 8) + LE(m.size, 4), LE(m.timestamp, 8));
    Put(buffer, 21, m.timestamp, 8);
  }

  method EncodeDatagram(buffer: array<byte>, bucket: u16, sequence: u64, payload: Payload) returns (length: nat)
    requires buffer.Length >= HDR_BYTES + ORDER_MESSAGE_SIZE
    modifies buffer
    ensures length == HDR_BYTES + ORDER_MESSAGE_SIZE
    ensures buffer[..] == Overwrite(old(buffer[..]), 0, DgramEncode(bucket, sequence, payload))
  {
    ghost var was := buffer[..];
    Put(buffer, 0, MAGIC, 4);
    OverwriteOn(was, LE(MAGIC, 4), LE(bucket, 2));
    Put(buffer, 4, bucket, 2);
    OverwriteOn(was, LE(MAGIC, 4) + LE(bucket, 2), LE(sequence, 8));
    Put(buffer, 6, sequence, 8);
    OverwriteOn(was, LE(MAGIC, 4) + LE(bucket, 2) + LE(sequence, 8), LE(ORDER_MESSAGE_SIZE, 2));
    Put(buffer, 14, ORDER_MESSAGE_SIZE, 2);
    OverwriteOn(was, LE(MAGIC, 4) + LE(bucket, 2) + LE(sequence, 8) + LE(ORDER_MESSAGE_SIZE, 2), payload);
    Copy(buffer, HDR_BYTES, payload);
    length := HDR_BYTES + ORDER_MESSAGE_SIZE;
  }
}
