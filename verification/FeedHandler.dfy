// The feed handler: it lets each venue message through once, in order,
// accounts for the ones it never saw, and republishes what the decoder makes
// of the rest.
module FeedHandlers {
  import opened Bytes
  import opened Messages
  import opened Segments
  import opened Decoder
  import opened DecoderLaws
  import opened Publishers

  const DEEP_PLUS: u16 := 0x8005
  const WORD: nat := 0x1_0000_0000_0000_0000

  /** A venue message under its venue sequence number. */
  datatype Item = Item(sequence: nat, bytes: seq<byte>)

  /** The handler's counters, and every message it handed to the decoder. */
  datatype Intake = Intake(expected: u64, captureGaps: u64, warned: bool, handled: seq<Item>)

  const NOTHING_YET: Intake := Intake(0, 0, false, [])

  /** The header of a packet worth reading: this protocol, and not empty. */
  function Accepted(packet: seq<byte>): (h: Option<Header>)
    ensures h.Some? ==> |packet| >= HEADER_BYTES && h.value.messageCount > 0
  {
    match DecodeHeader(packet)
    case None => None
    case Some(h) => if h.protocol == DEEP_PLUS && h.messageCount > 0 then Some(h) else None
  }

  predicate WrongProtocol(packet: seq<byte>) {
    DecodeHeader(packet).Some? && DecodeHeader(packet).value.protocol != DEEP_PLUS
  }

  function Numbered(messages: seq<Block>, first: nat): (items: seq<Item>)
    ensures |items| == |messages|
    ensures forall i | 0 <= i < |items| :: items[i] == Item(first + i, messages[i])
  {
    seq(|messages|, i requires 0 <= i < |messages| => Item(first + i, messages[i]))
  }

  /** The messages of a packet that were not handed on before. */
  function Fresh(expected: u64, packet: seq<byte>, h: Header): (items: seq<Item>)
    requires |packet| >= HEADER_BYTES
    ensures |items| <= h.messageCount
  {
    var messages := MessagesOf(packet, h);
    var skip := if expected > h.firstSequence then expected - h.firstSequence else 0;
    Numbered(messages, h.firstSequence)[Shorter(skip, |messages|)..]
  }

  /** How far the announced numbers start beyond what was expected. */
  function GapBefore(expected: u64, h: Header): u64 {
    if 0 < expected < h.firstSequence then h.firstSequence - expected else 0
  }

  function Gapped(captureGaps: u64, expected: u64, h: Header): u64 {
    (captureGaps + GapBefore(expected, h)) % WORD
  }

  function Raised(expected: u64, h: Header): u64 {
    var next := (h.firstSequence + h.messageCount) % WORD;
    if next > expected then next else expected
  }

  function Taken(s: Intake, packet: seq<byte>): Intake {
    match Accepted(packet)
    case None => s.(warned := s.warned || WrongProtocol(packet))
    case Some(h) =>
      Intake(Raised(s.expected, h), Gapped(s.captureGaps, s.expected, h), s.warned,
             s.handled + Fresh(s.expected, packet, h))
  }

  lemma TakenAccepted(s: Intake, packet: seq<byte>, h: Header)
    requires Accepted(packet) == Some(h)
    ensures Taken(s, packet)
            == Intake(Raised(s.expected, h), Gapped(s.captureGaps, s.expected, h), s.warned,
                      s.handled + Fresh(s.expected, packet, h))
  {
    hide Accepted, Fresh;
  }

  /** The handler after a list of packets. */
  function TakenAll(packets: seq<seq<byte>>): Intake
    decreases |packets|
  {
    if packets == [] then NOTHING_YET else Taken(TakenAll(packets[..|packets| - 1]), packets[|packets| - 1])
  }

  // ---- from packets to books -----------------------------------------------------

  function EventsOf(items: seq<Item>): (events: seq<Event>)
    ensures |events| == |items|
  {
    seq(|items|, i requires 0 <= i < |items| => EventOf(items[i].bytes))
  }

  lemma OneMoreItem(items: seq<Item>, item: Item)
    ensures var (s, out) := Decoded(START, EventsOf(items));
      Decoded(START, EventsOf(items + [item]))
          == (Handle(s, EventOf(item.bytes)).0, out + Handle(s, EventOf(item.bytes)).1)
  {
    var events := EventsOf(items + [item]);
    assert events[..|events| - 1] == EventsOf(items);
  }

  /** Whatever bytes are handed on, everything published is market data with a
      terminated symbol: never an end marker, and unchanged by the wire. */
  lemma {:induction false} OnlyMarketData(items: seq<Item>)
    ensures Named(Decoded(START, EventsOf(items)).0)
    ensures forall m | m in Decoded(START, EventsOf(items)).1 ::
        m.kind != END && Terminated(m.symbol) && DecodeWire(m) == m
    decreases |items|
  {
    if items != [] {
      var front, item := items[..|items| - 1], items[|items| - 1];
      OnlyMarketData(front);
      assert items == front + [item];
      OneMoreItem(front, item);
      EmitsMarketData(Decoded(START, EventsOf(front)).0, item.bytes);
    }
  }

  function DecodeWire(m: OrderMessage): OrderMessage {
    Messages.Decode(Encode(m))
  }

  /** A consumer that received every bucket's stream, in any interleaving,
      holds books that show the decoder's own table, whatever was fed in, as
      long as every event was roomy. */
  lemma ConsumerShowsTable(items: seq<Item>, received: seq<OrderMessage>, bucketCount: nat)
    requires bucketCount > 0 && AlwaysRoomy(EventsOf(items))
    requires forall i | 0 <= i < bucketCount ::
               BookLaws.OfBucket(received, i, bucketCount)
               == BookLaws.OfBucket(Decoded(START, EventsOf(items)).1, i, bucketCount)
    ensures Shows(Books.Replay(Books.EMPTY_SET, received).books, Decoded(START, EventsOf(items)).0.levels)
  {
    var stream := Decoded(START, EventsOf(items)).1;
    BookFollowsAlways(EventsOf(items), |items|);
    assert EventsOf(items)[..|items|] == EventsOf(items);
    assert ShownAfter(EventsOf(items));
    BookLaws.InterleavingIrrelevant(received, stream, bucketCount);
    BookLaws.BooksOfReplay(Books.EMPTY_SET, stream);
  }

  class FeedHandler {
    const decoder: DeepPlusDecoder
    const publisher: FeedPublisher
    var expected: u64
    var captureGaps: u64
    var published: nat
    var warnedProtocol: bool
    /** Every message handed to the decoder. */
    ghost var handled: seq<Item>

    ghost function State(): Intake
      reads this
    {
      Intake(expected, captureGaps, warnedProtocol, handled)
    }

    /** The publisher has published exactly what the decoder makes of the
        messages handed on. */
    ghost predicate Valid()
      reads this, decoder, publisher, publisher.repr
    {
      && decoder !in publisher.repr && this !in publisher.repr
      && publisher.Valid()
      && (decoder.State(), publisher.stream) == Decoded(START, EventsOf(handled))
      && published == |publisher.stream|
    }

    constructor (bucketCount: nat, ringSize: nat)
      requires 0 < bucketCount <= 0x1_0000 && ringSize > 0
      ensures Valid() && State() == NOTHING_YET && fresh(decoder) && fresh(publisher) && fresh(publisher.repr)
    {
      decoder := new DeepPlusDecoder();
      publisher := new FeedPublisher(bucketCount, ringSize);
      expected, captureGaps, published, warnedProtocol, handled := 0, 0, 0, false, [];
      new;
      assert EventsOf(handled) == [];
    }

    /** Publishes messages in order; `lose` says which publications are dropped
        on purpose. */
    method PublishAll(messages: seq<OrderMessage>, lose: nat -> bool)
      requires publisher.Valid() && this !in publisher.repr && published == |publisher.stream|
      requires |publisher.stream| + |messages| + 1 < WORD
      modifies this`published, publisher, publisher.repr
      ensures publisher.Valid() && publisher.stream == old(publisher.stream) + messages
      ensures published == |publisher.stream|
    {
      hide FeedPublisher.Valid, DatagramOf;
      for i := 0 to |messages|
        invariant publisher.Valid() && publisher.stream == old(publisher.stream) + messages[..i]
        invariant published == |publisher.stream|
      {
        var datagram := publisher.Publish(messages[i], lose(published));
        published := published + 1;
      }
    }

    /** Decodes one message and publishes what it emits. */
    method HandleMessage(sequence: nat, bytes: seq<byte>, lose: nat -> bool)
      requires Valid() && |publisher.stream| + 3 < WORD
      modifies this`published, this`handled, decoder, publisher, publisher.repr
      ensures Valid() && handled == old(handled) + [Item(sequence, bytes)]
      ensures |publisher.stream| <= old(|publisher.stream|) + 2
    {
      OneMoreItem(handled, Item(sequence, bytes));
      hide Decoded, EventsOf, Handle, EventOf, FeedPublisher.Valid;
      var output := new OrderMessage[2](i => END_MESSAGE);
      var count := decoder.Decode(bytes, output);
      hide DeepPlusDecoder.State;
      PublishAll(output[..count], lose);
      handled := handled + [Item(sequence, bytes)];
    }

    /** Hands on the messages of a packet but for those handed on before. */
    method HandleMessages(packet: seq<byte>, h: Header, skip: nat, lose: nat -> bool)
      requires |packet| >= HEADER_BYTES
      requires skip == if expected > h.firstSequence then expected - h.firstSequence else 0
      requires Valid() && |publisher.stream| + 0x2_0001 < WORD
      modifies this`published, this`handled, decoder, publisher, publisher.repr
      ensures Valid()
      ensures State() == old(State()).(handled := old(handled) + Fresh(old(expected), packet, h))
    {
      hide MessagesOf, Decoded, EventsOf, FeedPublisher.Valid;
      var messages := ForEachMessage(packet, h);
      ghost var items := Numbered(messages, h.firstSequence);
      var left := skip;
      for i := 0 to |messages|
        invariant Valid() && |publisher.stream| <= old(|publisher.stream|) + 2 * i
        invariant left == skip - Shorter(skip, i)
        invariant handled == old(handled) + items[Shorter(skip, i)..i]
      {
        if left > 0 {
          left := left - 1;
        } else {
          HandleMessage(h.firstSequence + i, messages[i], lose);
          assert items[Shorter(skip, i + 1)..i + 1] == items[Shorter(skip, i)..i] + [items[i]];
        }
      }
    }

    /** Counts the gap before a packet; returns how many of its messages were
        handed on before. */
    method CountGap(h: Header) returns (skip: nat)
      requires Valid()
      modifies this`captureGaps
      ensures Valid()
      ensures State() == old(State()).(captureGaps := Gapped(old(captureGaps), expected, h))
      ensures skip == if expected > h.firstSequence then expected - h.firstSequence else 0
    {
      hide Decoded, EventsOf, FeedPublisher.Valid, DeepPlusDecoder.State;
      skip := 0;
      if expected != 0 {
        if h.firstSequence > expected {
          captureGaps := (captureGaps + (h.firstSequence - expected)) % WORD;
        } else if h.firstSequence < expected {
          skip := expected - h.firstSequence;
        }
      }
    }

    /** Moves on past everything the packet announces. */
    method MoveOn(h: Header)
      requires Valid()
      modifies this`expected
      ensures Valid()
      ensures State() == old(State()).(expected := Raised(old(expected), h))
    {
      hide Decoded, EventsOf, FeedPublisher.Valid, DeepPlusDecoder.State;
      var next := (h.firstSequence + h.messageCount) % WORD;
      if next > expected {
        expected := next;
      }
    }

    method Accept(packet: seq<byte>, h: Header, lose: nat -> bool)
      requires Accepted(packet) == Some(h)
      requires Valid() && |publisher.stream| + 0x2_0001 < WORD
      modifies this, decoder, publisher, publisher.repr
      ensures Valid()
      ensures State() == Taken(old(State()), packet)
    {
      assert this !in publisher.repr;
      ghost var s := State();
      TakenAccepted(s, packet, h);
      hide Valid, State, Raised, Gapped, Fresh, Accepted, Taken, DecodeHeader;
      var skip := CountGap(h);
      HandleMessages(packet, h, skip, lose);
      MoveOn(h);
    }

    /** Takes in one packet. */
    method OnPayload(packet: seq<byte>, lose: nat -> bool)
      requires Valid() && |publisher.stream| + 0x2_0001 < WORD
      modifies this, decoder, publisher, publisher.repr
      ensures Valid()
      ensures State() == Taken(old(State()), packet)
    {
      hide DecodeHeader, MessagesOf, Decoded, EventsOf, FeedPublisher.Valid, DeepPlusDecoder.State, Raised, Fresh,
          GapBefore;
      var decoded := DecodeHeader(packet);
      if decoded.None? {
        return;
      }
      var h := decoded.value;
      if h.protocol != DEEP_PLUS {
        if !warnedProtocol {
          warnedProtocol := true;
        }
        return;
      }
      if h.messageCount == 0 {
        return;
      }
      Accept(packet, h, lose);
    }
  }
}
