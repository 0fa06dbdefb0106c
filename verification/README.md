# Verified model of the market-data pipeline

This project models, in Dafny 4.11, the path a quote takes through the
repository: venue packets are sequenced and decoded into price-level updates,
the updates are split by symbol into numbered multicast streams, and every
subscriber rebuilds those streams from lossy datagrams and a TCP repair
service. `dafny verify dfyconfig.toml` checks all of it.

## How it is built

One module per source file or component, in the form the source has: objects
that update their fields are classes (`Book`, `BookSet`, `Fingerprint`,
`DeepPlusDecoder`, `PublisherBucket`, `FeedPublisher`, `Subscriber`,
`FeedHandler`), and loops are loops. Each method is proved equal to a function
on plain values, and the laws are proved about those functions. The lemmas named
`...Exactly` and the layouts say what these functions compute in words of their own:
bytes, positions, and arithmetic written out.

| module | models |
|---|---|
| `Bytes`, `Hashing`, `HashWindows`, `Messages` | byte order, hashing and what it tells apart, message and datagram codecs (`src/helpers.h`) |
| `RepairWire` | repair requests and response frames, as both ends see them |
| `Layouts` | every wire format byte by byte |
| `Books`, `BookLaws`, `FingerprintLaws` | books, quotes, fingerprints (`src/book.h`) |
| `Decoder`, `EventWire`, `EmissionLaws`, `DecoderLaws` | order events to price levels (`src/deepplus.h`) |
| `Segments`, `FeedHandlers`, `PacketLaws`, `FeedLaws` | venue packets and input sequencing (`src/iextp.h`, `src/feedhandler.cpp`) |
| `Publishers`, `Numbering` | numbering, the ring and its answers (`src/feedpublisher.h`) |
| `Buckets`, `Subscribers` | the receiving end, as functions on one bucket and as the class (`src/subscriber.h`) |
| `Tracking` | a receiving bucket with its history, against any network and any server |
| `Protocol`, `Safety`, `Publication`, `Guarantees` | publisher, network, repair server and subscriber as one step system; its invariant; what it published and promises in every run |
| `EndToEnd` | the parts put together, from packets to books |
| `RequestLaws`, `ArrivalLaws` | when requests are sent and where a bucket starts, in every run |
| `TurnLaws` | what a turn of the driver leaves behind |
| `Turns` | the subscriber object, driven turn by turn, as a piece of a run |
| `Outstanding` | how much a bucket may be owed on the repair connection |
| `Continuations`, `Recovery`, `OneLoss` | how a hole is filled and a blocked message handed on from any moment of any run; one lost datagram from beginning to end |

In the step system a run is any sequence of: publish, finish, send or re-send a
datagram, let time pass, receive any datagram ever sent, tick one bucket with any
outcome of connecting and writing, serve a request, cut the response short,
read any number of bytes, lose the connection, deliver. Datagrams may therefore
be lost, duplicated, reordered and delayed without bound. Each section under the
publisher's lock is one step, and sending is a separate one.

What a run assumes: the repair server answers what it is asked, datagrams are
those the publisher made, the clock does not run backwards, and sequence numbers
fit 64 bits. `Orderly` and `Sane` (in `Buckets` and `Tracking`) are proved
without the first two.

## What the code does, where it differs from its comments

- The comment in `nak` (`src/subscriber.h:132`) calls expiry the only place data
  is written off; a zero-length repair frame writes data off too
  (`src/subscriber.h:255-259`). `Guarantees.WriteOffCauses` says exactly when either
  happens, and `OneLoss.LossCloses` has a run in which such a frame does it.
- The comment on the repair buffer (`src/subscriber.h:35-39`) takes one full batch
  per bucket for the most anyone can owe. `Outstanding.OwedWithinBatch` says exactly
  when that holds in a run, `BufferHoldsAll` that the buffer then holds everything,
  and `OwedMoreThanBatch` that there are runs in which it does not hold: ticks ask
  again while answers are outstanding (`SecondBatch`, `RepeatedBatch`). What keeps
  the parser going even then is `RepairWire.NeverWedged`.
- "Equal fingerprints = every message" (`src/book.h:88`) does not hold: a lost trade
  and a lost quote below the touch are never seen. `FingerprintLaws` has the general
  statements and two streams that show it. What does hold: equal streams have equal
  fingerprints, and a difference within four bytes in a row of what is mixed in
  always shows (`BookLaws.FingerprintTellsApart`), so a single wrong size at the
  touch never goes unseen (`FingerprintLaws.OneNumberTellsApart`).
- The basis at `src/helpers.h:96` is the code's own constant, modelled as it is.
- `expected` moves past everything a packet announces, even if the packet was cut
  short (`src/feedhandler.cpp:63-65`); `FeedLaws.GapsTellAll` says exactly when the
  reported counters are then complete, and `FeedLaws.CutPacketUncounted` gives a
  packet after which they are not.
- Levels equal the sums of live orders, and books equal levels, for well-behaved
  venues only: `DecoderLaws` has the exact conditions (`Sound`, `Roomy`) and, for
  each, events that break them.
- A bucket may hold a number both as parked and as written off, and may keep
  written-off numbers it has passed; nothing here claims otherwise.

## Model

| member | source | states |
|---|---|---|
| `Bytes.ReadWritten` | src/helpers.h:7-39 | Reading back n little-endian bytes returns what was written, for every value that fits n bytes. |
| `Bytes.WrittenRead` | src/helpers.h:7-39 | The other direction: every byte string is the writing of the number it reads as. |
| `Messages.CString` | src/helpers.h:121-123 | The text a C string function sees: everything before the first NUL, nothing past it. |
| `Messages.WireKeeps` | src/helpers.h:103-120 | Encoding and decoding keeps every field, except that the ninth symbol byte always arrives as NUL. |
| `Messages.RoundTrip` | src/helpers.h:103-120 | Decoding an encoded message gives that message back if and only if its symbol is terminated. |
| `Messages.WireRoundTrip` | src/helpers.h:103-120 | Every 29-byte string is the encoding of the message it decodes to. |
| `Messages.DgramExact` | src/helpers.h:68-93 | A byte string is accepted as datagram d if and only if its first 45 bytes are the encoding of d and the symbol of d is terminated. |
| `Messages.Put` | src/helpers.h:7-26 | Writes exactly the n little-endian bytes of a value at an offset and touches no other byte of the buffer. |
| `Messages.OrderMessageEncode` | src/helpers.h:103-110 | Overwrites the first 29 bytes of a buffer with the wire form of the message and nothing else. |
| `Messages.EncodeDatagram` | src/helpers.h:68-76 | Overwrites the first 45 bytes with the datagram, and returns its length. |
| `RepairWire.ParseRebuilds` | src/subscriber.h:233-267 | Parsing repair bytes loses and invents nothing: re-encoding the frames and appending the tail gives the bytes back. |
| `RepairWire.ParseUnique` | src/subscriber.h:233-267 | The parse is the only way to cut the bytes into well-formed frames and an incomplete tail. |
| `RepairWire.ParseInPieces` | src/subscriber.h:216-273 | Parsing what has arrived, and later the retained bytes plus more, is parsing it all at once. |
| `RepairWire.FeedIgnoresCuts` | src/subscriber.h:216-273 | However a byte stream is cut into receives, the frames found, the bytes retained and the verdict on the framing are those of the whole stream. |
| `RepairWire.BadStays` | src/subscriber.h:243-251 | Once a frame of impossible length is at the front, more bytes neither repair the framing nor add frames. |
| `RepairWire.NeverWedged` | src/subscriber.h:40-47 | A full repair buffer always starts with a complete frame, and what parsing retains is less than the buffer holds: parsing never stops for good. |
| `RepairWire.RequestRoundTrip` | src/feedpublisher.h:140-155 | The server reads a request of an allowed size exactly as the subscriber wrote it, and leaves what follows unread. |
| `Layouts.RequestExact` | src/feedpublisher.h:140-155 | The server takes up request r if and only if the bytes start with r in full, for a bucket it has and of 1 to 512 numbers. |
| `Layouts.RequestLayout` | src/subscriber.h:197-202 | In a request the bucket stands in bytes 0-1, the count in 2-3, and number i in the eight bytes at 4 + 8i, low byte first. |
| `Layouts.FrameLayout` | src/feedpublisher.h:158-167 | In an answer the bucket stands in bytes 0-1, the number in 2-9 and the length in 10-11: 29 and the payload behind it, or zero and nothing. |
| `Layouts.MessageLayout` | src/helpers.h:103-110 | In a message the kind is byte 0, the symbol bytes 1-8, and price, size and time stand at 9, 17 and 21, low byte first. |
| `Layouts.DatagramLayout` | src/helpers.h:68-76 | A datagram is 45 bytes: the magic number, bucket at 4, number at 6, the length 29 at 14, the payload at 16. |
| `Layouts.HeaderLayout` | src/iextp.h:12-27 | Where each field of a venue packet header stands in its 40 bytes. |
| `Layouts.BlockLayout` | src/iextp.h:34-42 | A message block is a length in two bytes, and as many bytes. |
| `Hashing.Fnv1a` | src/helpers.h:94-102 | The loop computes the fold of the mixing step over the bytes, from the basis the code uses. |
| `Hashing.Fingerprint.Mix` | src/helpers.h:124-132 | Mixes the eight bytes of a value, least significant first. |
| `Hashing.OneByteMore` | src/helpers.h:97-101 | One byte more: exclusive or with the hash so far, times 1099511628211, modulo 2^64; no byte leaves the hash as it was. |
| `Hashing.XorBits` | src/helpers.h:97-101 | A bit of an exclusive or is set exactly when one of the two bits is. |
| `Hashing.StirKeepsHashesApart` | src/helpers.h:127-130 | Mixing equal bytes never merges two different 64-bit hashes: exclusive-or and the odd multiplication are invertible modulo 2^64. |
| `Hashing.StirKeepsBytesApart` | src/helpers.h:127-130 | Mixing different bytes into one hash never gives the same hash. |
| `Hashing.DivergenceSurvives` | src/helpers.h:126-131 | Equal byte strings mixed into two hashes give equal results if and only if the hashes were equal. |
| `Hashing.OneByteChangesEverything` | src/helpers.h:126-131 | Two traces of equal length that differ in exactly one byte end with different fingerprints, from any start. |
| `HashWindows.WindowTellsApart` | src/helpers.h:126-131 | Two traces of equal length that differ only within four bytes in a row end with different fingerprints, from any start: no such distance survives the multiplications modulo 2^64. |
| `Books.Touch` | src/book.h:68-82 | The quote is the highest bid and the lowest ask with their sizes, zero where a side is empty. |
| `Books.Book.Apply` | src/book.h:41-65 | Sets or deletes the one level, and reports a problem exactly when a quote left some bid at or above some ask; trades change nothing and report nothing. |
| `Books.BookSet.Apply` | src/book.h:106-148 | Updates the symbol's book, the crossed count, the last quote, and the fingerprint with exactly the touch changes; end markers do nothing. What each part is, is said without these definitions by `BookExactly`, `CrossedExactly` and `MovedTouchStirs`. |
| `Books.BookSet.MixQuote` | src/book.h:140-146 | The fingerprint takes in the hashed symbol, the bid price, the bid size, the ask price and the ask size, eight bytes each, in this order. |
| `BookLaws.BookExactly` | src/book.h:41-65 | Level by level, what a message leaves: a bid or ask sets its own level, deletes it at size zero, and touches no other level and not the other side; other kinds change nothing. |
| `BookLaws.CrossedExactly` | src/book.h:114-129 | The count grows, by one, exactly when a bid or an ask leaves both sides with levels and the best bid at or above the best ask. |
| `BookLaws.ReplayStaysTidy` | src/book.h:41-65 | After any stream no stored level has size zero, and every remembered quote is the touch of its book. |
| `BookLaws.FingerprintOfTrace` | src/book.h:131-147 | The fingerprint of any stream is the hash of the concatenated touch changes and of nothing else. |
| `BookLaws.FingerprintTellsApart` | src/book.h:85-97 | Streams whose touch changes differ only within four bytes in a row always have different fingerprints. |
| `FingerprintLaws.QuoteTraceReads` | src/book.h:140-146 | The forty bytes of a touch change read back as the hashed symbol, the bid and its size, the ask and its size, at 0, 8, 16, 24 and 32. |
| `FingerprintLaws.QuoteTraceTells` | src/book.h:140-146 | Equal bytes of a touch change mean equal quotes. |
| `FingerprintLaws.MovedTouchStirs` | src/book.h:131-147 | A message that moves the touch of its symbol mixes in the hash of that symbol, the highest bid, the lowest ask and the sizes there, as the book stands then. |
| `FingerprintLaws.OneWrongNumberSeen` | src/book.h:131-147 | Two continuations of one stream that both move the touch of a symbol, to quotes one number apart (a size, or the lower half of a price), have equal fingerprints if and only if the quotes are equal. |
| `FingerprintLaws.OneNumberTellsApart` | src/book.h:140-146 | Streams that mix in the same but for one number, its two values alike in the upper 32 bits (as any two sizes are), always have different fingerprints. |
| `FingerprintLaws.FingerprintsAgree` | src/book.h:85-97 | For any two streams: after the common front and before the common end of what they mix in, the fingerprints agree if and only if the parts between collide. |
| `FingerprintLaws.StirsWhenTouchMoves` | src/book.h:131-147 | In a tidy book set a message mixes nothing in if and only if it is an end marker or leaves the touch of its symbol where it was; then the fingerprint stays as it is. |
| `FingerprintLaws.LostTradeUnseen` | src/book.h:85-88 | The claim that equal fingerprints mean every message arrived is false: dropping a trade anywhere in any stream leaves the fingerprint, the crossed count, and every book and quote as they were. |
| `FingerprintLaws.LostDeepQuoteUnseen` | src/book.h:85-88 | Nor does the fingerprint see the loss, after any stream, of a quote that did not move the touch. |
| `FingerprintLaws.EqualFingerprintsDifferentBooks` | src/book.h:85-88 | Two concrete streams with one fingerprint and different books: the second lacks a bid below the best. |
| `BookLaws.BookOfSymbol` | src/book.h:114-115 | A symbol's book is the replay of that symbol's own messages alone. |
| `BookLaws.BucketCarriesSymbol` | src/helpers.h:121-123 | The bucket of a symbol carries all of that symbol's messages, in order. |
| `Numbering.BucketOfText` | src/helpers.h:121-123 | The bucket is the hash of the characters before the first NUL modulo the number of buckets, whatever stands behind that NUL. |
| `Numbering.EachInPlace` | src/feedpublisher.h:65-83 | Message k of a stream is carried by the bucket its hash falls to, behind as many messages as have earlier places there. |
| `Numbering.CarriesEach` | src/feedpublisher.h:65-83 | A bucket carries one message for every place of the stream whose hash falls to it, and no more. |
| `BookLaws.CrossedSums` | src/book.h:97-129 | The crossed updates counted bucket by bucket add up to those of the undivided stream. |
| `BookLaws.InterleavingIrrelevant` | src/feedpublisher.h:66-68 | Any interleaving of the bucket streams builds the same books, the same last quotes and the same crossed count. |
| `Decoder.TrimmedLength` | src/deepplus.h:6-14 | The length of a symbol without its trailing spaces and NULs: only those are cut, and none is left. |
| `Decoder.CopySymbol` | src/deepplus.h:6-14 | The copying loop leaves the trimmed symbol and one NUL, and the rest of the buffer as it was. |
| `Decoder.DeepPlusDecoder.AddLevel` | src/deepplus.h:35-54 | Adds to one level, drops it at or below zero, and announces the new total truncated to 32 bits. |
| `Decoder.DeepPlusDecoder.Decode` | src/deepplus.h:58-185 | On any bytes, takes the state and emits the messages that the event spelled by those bytes asks for; an execution of a live order emits its level and a trade, a report one trade, with their fields given from the bytes. |
| `EmissionLaws.TradesExactly` | src/deepplus.h:141-182 | An execution is a trade: in any state the trades an event emits are exactly one for an execution of a live order (its symbol; the price, size and time of the event), one for a report, none otherwise. |
| `EmissionLaws.TapeExactly` | src/deepplus.h:58-185 | The trades of any stream are, in order, those of its executions of live orders and of its reports, each order looked up in its own history. |
| `EmissionLaws.OrdersExactly` | src/deepplus.h:71-165 | For every id the decoder remembers exactly what the events that named it leave: the latest addition with every later change, until deleted or filled. |
| `EmissionLaws.NoDeadOrders` | src/deepplus.h:157-163 | If every addition and change leaves shares, every order remembered has some: filled orders are dropped. |
| `EmissionLaws.UnknownExactly` | src/deepplus.h:84-141 | What is counted unknown is the deletions, changes and executions that named no live order. |
| `EmissionLaws.UpdatesExactly` | src/deepplus.h:35-54 | An event emits, before any trade, one update for each level it changes, in order, with what then rests there modulo 2^32; a move to another price changes the old level, then the new one. |
| `EmissionLaws.LevelsExactly` | src/deepplus.h:35-44 | Each level an event touches moves by what the event adds there, but not below zero, and no other level moves. |
| `EventWire.EventRoundTrip` | src/deepplus.h:58-185 | For each of the five layouts, whatever event a writer puts down (and whatever flags, unused symbol and tail it adds), the decoder reads that event; a symbol filled up with any spaces and NULs is read as itself. |
| `EventWire.EveryFieldIsAName` | src/deepplus.h:6-14 | Every eight-byte symbol field is some name filled up that way, so the round trip leaves no field out. |
| `Layouts.EventLayout` | src/deepplus.h:58-185 | Which bytes are which event, as an if-and-only-if on length, kind and side, and where its time, id, size and price stand. |
| `DecoderLaws.SumsKept` | src/deepplus.h:71-165 | If every level equals the sum of the live orders there, it still does after an event if and only if the event is sound: no live id with shares left is added again, and no execution takes more than its order has (unless that order is all its level holds). |
| `DecoderLaws.SumsKeptAlways` | src/deepplus.h:35-54 | Over any event stream: levels equal the sums, absent exactly at zero, after every prefix if and only if every event was sound when it came. |
| `DecoderLaws.ReusedIdBreaksSums` | src/deepplus.h:81 | A concrete stream that breaks the sums: the same order added twice under one id. |
| `DecoderLaws.OverfillBreaksSums` | src/deepplus.h:145-163 | Another: two orders of 10 at one level, then 15 executed of the first. |
| `DecoderLaws.AnnouncedLevelShows` | src/deepplus.h:46-52 | After one announced level change the consumer's book shows the table if and only if what rested there plus the change is below 2^32. |
| `DecoderLaws.BookFollows` | src/feedhandler.cpp:55-60 | After any event, sound or not, a consumer that showed the table shows it again if and only if the event was roomy in the state before it: an addition or a modification leaves what rests at the level it raises below 2^32. |
| `DecoderLaws.BookFollowsAlways` | src/deepplus.h:35-54 | For any event stream, replaying everything emitted reproduces the table at every message boundary if and only if every event was roomy when it arrived. |
| `DecoderLaws.LargeTotalLeavesBookBehind` | src/deepplus.h:51 | A concrete stream that is not: a level of exactly 2^32 is announced as zero and leaves the book. |
| `DecoderLaws.NothingEmptyStored` | src/deepplus.h:41-44 | Neither the table nor any book ever stores a level without size, on any input. |
| `DecoderLaws.EmitsMarketData` | src/deepplus.h:46-52 | Any bytes decode to bids, asks and trades only, stamped with the event's time, trades with the event's price and size; their symbols are terminated and survive the wire. |
| `Segments.HeaderExact` | src/iextp.h:12-27 | A packet is accepted with header h if and only if it is version 1 and its first 40 bytes spell h. |
| `Segments.BlocksExact` | src/iextp.h:30-43 | The walk finds the one list of blocks that fills the front of the data and stops at the announced count or at the first block that is not whole. |
| `Segments.PacketRoundTrip` | src/iextp.h:12-43 | A packet written whole is read back whole, whatever follows it. |
| `Segments.CutPacket` | src/iextp.h:34-42 | A packet cut off anywhere behind its header yields the first of its messages, unchanged, and no others. |
| `Segments.ForEachMessage` | src/iextp.h:30-43 | The offset loop visits exactly those blocks, in order. |
| `PacketLaws.AcceptedExactly` | src/feedhandler.cpp:22-39 | A packet is taken in if and only if it has 40 bytes, version 1, protocol 0x8005 and a message count above zero, read from its bytes. |
| `PacketLaws.OthersIgnored` | src/feedhandler.cpp:22-39 | Any other packet leaves `expected`, the gaps and the messages handed on alone; the warning is set exactly by a whole version 1 header of another protocol. |
| `PacketLaws.TakenExactly` | src/feedhandler.cpp:40-65 | A packet taken in adds exactly its messages that were not passed before, under their own numbers, counts the gap in front of it, and raises `expected` past all it announces. |
| `PacketLaws.WholePacketTaken` | src/feedhandler.cpp:40-65 | The same for a packet written whole, of any number of messages and with any bytes behind it. |
| `PacketLaws.MessagesExactly` | src/iextp.h:30-43 | A packet's messages are the blocks at the front of its payload, at most as many as announced, up to the first that is not whole; no other list is. |
| `FeedLaws.MissingExactly` | src/feedhandler.cpp:63-65 | Messages go missing inside a packet exactly when it does not wrap, holds fewer than it announces, and announces numbers not passed before. |
| `FeedLaws.AllAccounted` | src/feedhandler.cpp:40-65 | Over any packets, overlapping, repeated, reordered, missing or cut short: after every packet, each venue number was decoded at most once, in increasing order, below `expected`, and decoded plus gaps plus missing equals `expected` minus the first number seen; this holds if and only if no packet overran, that is, announced numbers past 2^64 while adding a gap or a message. |
| `FeedLaws.WrapBreaksAccount` | src/feedhandler.cpp:63-65 | A concrete packet that overruns: its message is decoded and `expected` stays at zero. |
| `FeedLaws.GapsTellAll` | src/feedhandler.cpp:40-65 | Decoded plus `capture_gaps` alone equals that difference after every packet if and only if no packet overran and none announcing anything new was cut short. |
| `FeedLaws.CutPacketUncounted` | src/feedhandler.cpp:63-65 | A concrete packet cut off behind its header: its number is passed, neither decoded nor counted as a gap. |
| `FeedLaws.CleanFeed` | src/feedhandler.cpp:48-61 | For packets of one venue, the decoder is at every moment handed all its messages from the first number seen, once each, in order, if and only if no packet overran, no gap was counted and nothing was missing. |
| `FeedLaws.ReceiversAgree` | src/feedhandler.cpp:40-65 | Of two receivers of one venue with the same range, one of which lost nothing, the other handed on the same messages without overrunning if and only if it lost nothing either. |
| `FeedHandlers.FeedHandler.OnPayload` | src/feedhandler.cpp:22-66 | Takes exactly the step that `AcceptedExactly`, `OthersIgnored` and `TakenExactly` describe on the bytes, and keeps this: what was published is what the decoder makes of all messages handed on, and `published` counts it. |
| `FeedHandlers.FeedHandler.HandleMessages` | src/feedhandler.cpp:48-61 | The skip countdown hands on exactly the messages not handed on before, under their venue numbers. |
| `FeedHandlers.OnlyMarketData` | src/feedhandler.cpp:55-60 | Whatever bytes are handed on, no end marker is ever published and every published message survives the wire. |
| `FeedHandlers.ConsumerShowsTable` | src/feedhandler.cpp:55-60 | A consumer that received every bucket, in any interleaving, holds books that show the decoder's table, if every event was roomy. |
| `Publishers.RingHolds` | src/feedpublisher.h:72-82 | After any log the ring's used slots hold exactly what was published under their numbers, and the newest ringful is all there. |
| `Publishers.RingAnswers` | src/feedpublisher.h:150-169 | A request for s is answered with the payload published under s if and only if s was published and fewer than a ringful of messages came after it; otherwise with the zero-length frame. |
| `Publishers.PublisherBucket.Publish` | src/feedpublisher.h:65-98 | Feeds the golden books, numbers and stores the message, counts it, and sends its datagram unless it is lost on purpose; log, ring and golden books stay in step. |
| `Publishers.FeedPublisher.NumbersUsed` | src/feedpublisher.h:75-83 | While publishing, a bucket used one number for each message its counter calls published; once closed, one more, for the end marker, which is not counted. |
| `Publishers.PublisherBucket.Serve` | src/feedpublisher.h:150-169 | The response is the encoding of one answer per requested number, in request order. |
| `Publishers.FeedPublisher.Publish` | src/feedpublisher.h:65-98 | Each bucket holds exactly the published messages of its symbols, in order, and the datagram carries the next number of that bucket. |
| `Numbering.DatagramSays` | src/feedpublisher.h:65-97 | The bytes of the datagram of a message: the bucket its hash falls to, one more than the messages that bucket carried before, and the message. |
| `Publishers.FeedPublisher.Finish` | src/feedpublisher.h:102-132 | Every bucket's log is closed by one end marker under its next number, which the golden books never see, and twenty rounds of end datagrams are sent, less those lost on purpose. |
| `Publishers.EndsSent` | src/feedpublisher.h:119-131 | What finishing sends is, for every bucket and every round in which it is not dropped, the end marker under the bucket's last number, and nothing else. |
| `Numbering.EndsCounted` | src/feedpublisher.h:119-131 | When nothing is dropped, twenty end datagrams are sent for every bucket. |
| `Subscribers.Subscriber.constructor` | src/subscriber.h:314-343 | Starts every bucket unsynced, or synced at the demanded number with backfill off. |
| `Subscribers.Subscriber.AcceptOrderMessage` | src/subscriber.h:96-125 | Syncs (at the number itself, or a backfill before it but not before 1), counts a duplicate, or parks the message and opens a hole for every number in between not known yet; other buckets are untouched. |
| `Subscribers.Subscriber.DrainUdp` | src/subscriber.h:75-94 | Takes in the queued datagrams one after another, each at its own clock reading, ignoring the malformed and those of other buckets, and counts those of its own. |
| `Subscribers.Subscriber.ExpireHoles` | src/subscriber.h:144-151 | The scan that stops at the first live hole writes off exactly the holes a scan of all of them would. |
| `Subscribers.Subscriber.CollectBatch` | src/subscriber.h:161-179 | The loop gathers only holes noticed more than the request delay ago, or last asked for more than the repeat interval ago, and leaves one out only when the batch is full of lower ones. |
| `Subscribers.Subscriber.NakBucket` | src/subscriber.h:127-214 | Expiry, back-off, batch, connect, write and stamping together do what the specification says, in each case of failure too; a hole is stamped only if its delay or repeat interval, written out, was over. |
| `Subscribers.Subscriber.ApplyBuffered` | src/subscriber.h:235-267 | Applies exactly the frames the buffered bytes parse into, and stops at the retained tail or at a bad length. |
| `Subscribers.Subscriber.DrainTcp` | src/subscriber.h:216-273 | Over any receives, applies the frames of the held and new bytes and keeps the tail; a close or a bad length drops the connection and all it held. |
| `Subscribers.DrainedInPieces` | src/subscriber.h:216-273 | Two drain calls on an open connection leave buckets and retained bytes where one call with all the bytes would, unless the first ends the connection; then the later bytes would have changed nothing. |
| `Subscribers.DrainsIgnoreCuts` | src/subscriber.h:216-273 | The same for any number of drain calls, however the stream is cut. |
| `Subscribers.Subscriber.Deliver` | src/subscriber.h:275-299 | Releases everything contiguous: the callback gets exactly the messages among it, in order, and the bucket ends done or before a number neither parked nor written off. |
| `Subscribers.Subscriber.Pump` | src/subscriber.h:358-368 | One turn of the driver takes exactly the specified step (every socket read dry, the repair connection drained or found closed, then each bucket ticked at its own clock reading and delivered, on the connection as the one before left it), hands the callbacks exactly what was released, counts the datagrams heard, and leaves no hole older than the give-up time and nothing that could go out. |
| `TurnLaws.TurnTakesAll` | src/subscriber.h:358-368 | After a turn, whatever the network did, of every own datagram queued a bucket has the message or went past it, and every complete answer read was acted on by the bucket it is addressed to. |
| `TurnLaws.DatagramsFirst` | src/subscriber.h:358-368 | The sockets are read before the repair connection: a bucket whose repairs in a turn are all of numbers it has own datagrams of in that turn counts none of them repaired. |
| `Subscribers.Subscriber.ResetRepair` | src/subscriber.h:61-66 | Dropping the connection forgets the half-frame with it and leaves every bucket alone; every place that drops it goes through here. |
| `Subscribers.Subscriber.Done` | src/subscriber.h:371-376 | True exactly when every bucket is done. |
| `Subscribers.Subscriber.TotalStats` | src/subscriber.h:378-388 | The counters of all buckets, added up. |
| `Subscribers.SumStatsExactly` | src/subscriber.h:378-388 | Each of the five counters of the total is the sum of that counter over the buckets. |
| `Subscribers.Subscriber.StatsFor` | src/subscriber.h:391-396 | The counters of the first bucket of that id, or zeros if there is none. |
| `Subscribers.Subscriber.HeardFeed` | src/subscriber.h:398 | True exactly when some own datagram was taken in. |
| `Buckets.AcceptExactly` | src/subscriber.h:96-125 | What a datagram does, field by field: where the first one starts the bucket, when it is a duplicate, and exactly which numbers become holes, noticed now. |
| `Buckets.NakOnHoles` | src/subscriber.h:127-214 | What a tick does to the holes: exactly those older than the give-up time are written off, exactly those asked for are stamped, and each of these was due, the arithmetic written out. |
| `Buckets.BatchExactly` | src/subscriber.h:161-179 | The same arithmetic for the batch: due holes only, ascending, one left out only when 512 lower ones fill it. |
| `Buckets.NakOnConnection` | src/subscriber.h:155-213 | What a tick does to the connection: nothing when nothing is due or a connect is held back; held back for the retry time, and down, after a failure; otherwise up with a request sent. |
| `Buckets.NakOnCounters` | src/subscriber.h:127-214 | A tick leaves everything else of the bucket alone, and counts a request exactly when one was sent. |
| `Buckets.FrameExactly` | src/subscriber.h:252-265 | What a repair frame does, field by field, below and above the next number wanted, with and without a payload. |
| `Buckets.DeliveryStops` | src/subscriber.h:280-298 | A delivery passes as many numbers as it releases and stops behind the end marker, which alone finishes the bucket, or before a number neither parked nor written off. |
| `Buckets.ReleaseOneExactly` | src/subscriber.h:280-298 | One release, field by field: when there is none, what goes out, and which counter grows. |
| `Buckets.DeliveryExactly` | src/subscriber.h:280-298 | Each number passed went out as its parked message, as the end, or as lost when nothing was parked and it was written off; all else stays parked. |
| `Buckets.AcceptOrderly` | src/subscriber.h:96-125 | Taking in any datagram keeps the bucket orderly: holes apart from what is parked or written off, everything below a hole known, and notice times that never fall as numbers rise. |
| `Buckets.NakOrderly` | src/subscriber.h:127-214 | A tick keeps the bucket orderly, whatever becomes of the connection. |
| `Buckets.FrameOrderly` | src/subscriber.h:252-265 | Applying any repair frame, asked for or not, keeps the bucket orderly. |
| `Buckets.ReleaseAllOrderly` | src/subscriber.h:280-298 | Releasing keeps the bucket orderly and stops only when nothing more can go. |
| `Buckets.NewHolesAbove` | src/subscriber.h:117-121 | New holes lie above every hole there was, which is why notice times are in order. |
| `Buckets.LateHolesFirst` | src/subscriber.h:138-151 | If the lowest hole is still live, no hole is late. |
| `Buckets.NakThenDeliverUnstuck` | src/subscriber.h:127-159 | After a tick and a delivery no hole is older than the give-up time, and the bucket is done, or has nothing left that could go out and no hole but one it waits for, with the server up, down or backed off. |
| `Buckets.BatchShape` | src/subscriber.h:161-179 | A batch is strictly ascending, made of eligible holes, and leaves one out only when it is full of lower ones. |
| `Outstanding.SecondBatch` | src/subscriber.h:35-39 | One batch per bucket does not bound what is owed: a second tick at the same moment asks for numbers, none of them asked for by the first, if and only if more is due than a request can name. |
| `Outstanding.ManyHoles` | src/subscriber.h:117-121 | Such a bucket: when number 514 is the first to arrive, 513 holes are due between the request delay and the give-up time. |
| `Outstanding.RepeatedBatch` | src/subscriber.h:170-171 | Nor need more be due than fits one request: when all holes fit, are due and live on, a later tick asks for the very same numbers, answered or not, if and only if the repeat interval has passed. |
| `Outstanding.OwedStep` | src/subscriber.h:35-47 | What every step makes of what a bucket is owed: only its own ticks add to it, by what they ask for; serving keeps it, reading takes off the frames read, and losing the connection forgives everything. |
| `Outstanding.OwedWithinBatch` | src/subscriber.h:35-39 | In every run a bucket is owed at most one batch at every moment if and only if no tick of it went out on an open connection when what was owed and what was due did not fit one batch together. |
| `Outstanding.BufferHoldsAll` | src/subscriber.h:35-42 | As long as no bucket is owed more than a batch, all bytes held and in flight fit the repair buffer. |
| `Outstanding.OwedMoreThanBatch` | src/subscriber.h:35-39 | For every message, ring and timing under which holes are asked for before they are given up, there is a run in which a bucket is owed more than a batch: the claim of the comment is false. |
| `Tracking.AcceptSane` | src/subscriber.h:96-125 | Taking in a datagram keeps all that is tracked: no forgotten gap, spaced requests, justified write-offs, balanced counters. |
| `Tracking.NakSane` | src/subscriber.h:127-214 | A tick keeps all of it. |
| `Tracking.FrameSane` | src/subscriber.h:252-265 | A repair frame keeps all of it. |
| `Tracking.ReleaseOneSane` | src/subscriber.h:280-298 | Releasing a number keeps all of it. |
| `Safety.StepSafe` | src/subscriber.h:358-368 | Every step of publisher, network, repair server or subscriber keeps the system invariant. |
| `Safety.RunSafe` | src/subscriber.h:358-368 | The invariant holds in every reachable state of every run. |
| `Safety.ParsePart` | src/subscriber.h:236-267 | A part of an honest byte stream parses into the first of its frames, never into a bad length, and the tail continues with the rest. |
| `Safety.ReadSafe` | src/subscriber.h:216-273 | Reading any number of bytes off an honest connection, even one cut short, applies only true answers and keeps the invariant. |
| `Safety.ServeSafe` | src/feedpublisher.h:140-172 | The server reads the oldest outstanding request and its answers are true of the log at that moment and ever after. |
| `Guarantees.DeliveredExactly` | src/subscriber.h:275-299 | In every run the callback was handed exactly the publisher's log from the bucket's first number to the next one wanted, in order, once each, unchanged, minus exactly the numbers counted unrecoverable and the end marker. |
| `Guarantees.NoForgottenGap` | src/subscriber.h:109-124 | In every state each number from the next wanted to the highest accepted is parked, written off or a hole, and holes are apart from the other two. |
| `Guarantees.HoleAtMostOnce` | src/subscriber.h:116-122 | A number becomes a hole at most once in a run. |
| `Guarantees.RequestsSpaced` | src/subscriber.h:161-213 | Every request sent is strictly ascending, names at most 512 noticed holes, and two requests naming one number are more than the repeat interval apart. |
| `RequestLaws.RequestsWait` | src/subscriber.h:165-169 | In every run every request names a number only more than the request delay after it was noticed missing. |
| `RequestLaws.AskedInTime` | src/subscriber.h:144-169 | A tick that asks for a number does so more than the request delay, and no more than the give-up time, after the step in which a datagram showed it missing. |
| `RequestLaws.AsksAreSent` | src/subscriber.h:195-213 | The requests on record, of which all this is said, are those the ticks sent, in order, at their times. |
| `RequestLaws.BackedOff` | src/subscriber.h:155-206 | In every run, after a connect or a write failed the connection stays down and carries nothing until the retry time has passed. |
| `RequestLaws.FailureKeepsDue` | src/subscriber.h:185-209 | A failed connect or write leaves exactly the holes due that were due before. |
| `Guarantees.RequestNamesLowestDue` | src/subscriber.h:161-181 | A request names current due holes, and leaves a due one out only when it is full of lower ones. |
| `Guarantees.WriteOffsJustified` | src/subscriber.h:144-151 | Every number written off or counted unrecoverable was a hole that outlived the give-up time, or one the server no longer held because at least a ringful of newer messages existed. |
| `Guarantees.WriteOffCauses` | src/subscriber.h:144-159 | In any world, honest or not, a step writes a number off if and only if it is a tick that finds the number's hole late, or reads a zero-length frame for it; so failed connects, failed writes, closed and cut connections and frames of bad length write nothing off. |
| `Guarantees.EndNeverMissing` | src/subscriber.h:117-124 | The end marker is never a hole and never written off. |
| `Guarantees.DoneMeansComplete` | src/subscriber.h:285-289 | A bucket is done only when every number up to the end marker was delivered or counted unrecoverable, with nothing parked and no hole left. |
| `Guarantees.Conservation` | src/subscriber.h:280-298 | Numbers passed equal delivered plus unrecoverable (plus the end); messages brought by datagram or repair equal delivered plus parked (plus the end); the publisher's numbers used equal what it published in the bucket (plus the end once finished). |
| `Guarantees.BoundedBlocking` | src/subscriber.h:364-367 | In every run, after a tick and a delivery the bucket is done, past everything accepted, or waiting for a hole no older than the give-up time, with or without a repair server. |
| `Guarantees.SessionEnds` | src/subscriber.h:364-376 | In every run, once the end marker was accepted and every hole is older than the give-up time, one tick and one delivery finish the bucket, whatever the repair server does. |
| `Guarantees.ResponsesParse` | src/feedpublisher.h:150-169 | A response parses into one answer per requested number, in request order, each the published payload exactly while the ring holds it. |
| `Guarantees.NeverFalselyGone` | src/feedpublisher.h:161-162 | No answer in flight says gone of a number that is held or not published yet. |
| `Guarantees.SubscriberSteps` | src/subscriber.h:358-368 | Without its history, the subscriber of the step system takes exactly the steps its methods are proved to take. |
| `Turns.TurnIsRun` | src/subscriber.h:358-368 | From any moment of any run, a whole turn of the driver, whatever it meets, is a piece of a run that ends where the turn leaves the subscriber and hands each callback what the turn hands on. |
| `Turns.NewSubscriber` | src/subscriber.h:312-343 | A new subscriber object stands where every run starts. |
| `Turns.TakeTurn` | src/subscriber.h:358-368 | A turn of an object that stands where a run stands extends that run to where the object stands then; so the promises made of every run hold of the object, turn after turn. |
| `Guarantees.CleanConsumerComplete` | src/subscriber.h:275-299 | A consumer from number 1 that reached the end and lost nothing was handed the whole log but for the end marker. |
| `Guarantees.CleanConsumerMatchesGolden` | src/feedpublisher.h:68-71 | When a publisher object that was given the messages of the run has closed the bucket, its golden book set is exactly what such a consumer's messages replay to: books, quotes, crossed count and fingerprint. |
| `Guarantees.LiveStart` | src/subscriber.h:98-108 | A bucket that joined live starts where one datagram of its own put it, at that number without a backfill, else that many before it but not before 1, and starts there for the remainder of the run. |
| `ArrivalLaws.FirstDatagramDecides` | src/subscriber.h:96-125 | In every run that datagram is the first of its own the bucket was handed; ever after, no number below the start it fixes was noticed missing or is a hole. |
| `ArrivalLaws.JoinsLive` | src/subscriber.h:96-125 | What it does: without a backfill the bucket wants that very number and has no hole; with one, exactly the numbers from the start up to it are holes, noticed then. |
| `ArrivalLaws.NoNumberSkipped` | src/subscriber.h:109-124 | In every run, once a bucket was handed a number, every number from the next wanted to it is parked, written off or a hole, at every later moment. |
| `ArrivalLaws.DatagramsCounted` | src/subscriber.h:85-125 | In every run the own datagrams a bucket was handed, and the repairs, are those delivered, parked or counted duplicates, and the end. |
| `ArrivalLaws.ReceiveParks` | src/subscriber.h:96-125 | After any datagram of its own a bucket has parked or passed that number. |
| `Guarantees.StartAsConfigured` | src/subscriber.h:337-340 | A demanded first number is the bucket's first number in every state. |
| `Recovery.HoleCanBeFilled` | src/subscriber.h:161-273 | From any moment of any run, a hole whose message the ring still holds has a continuation of at most five steps that parks that message, if at some time from then on, and no earlier than a connect may be tried, it is due and among the lowest that fit one request; whatever state the repair connection is in. |
| `Recovery.LowestHoleCanBeFilled` | src/subscriber.h:161-273 | In particular the lowest hole that is due then. |
| `Recovery.BlockedMessageCanBeHandedOn` | src/subscriber.h:155-298 | From any moment of any run, the message a bucket waits for can still be handed on, within six steps, if the ring holds it and the first moment at which it can be asked for (its delay or repeat interval over, no connect held back) is not later than its give-up time. |
| `OneLoss.LossCloses` | src/subscriber.h:233-298 | For every message and every ring there is a run in which its datagram is never sent and its bucket ends done all the same: clean and with exactly that message handed on while the ring holds two messages; with a ring of one, its number is written off by a zero-length frame before its hole is given up. |
| `Publication.LogsDivideAlways` | src/feedpublisher.h:66-83 | In every run each bucket's log is the published messages of its symbols, closed by one end marker once finished. |
| `Publication.NumbersPublished` | src/feedpublisher.h:72-83 | In every run a bucket's ring is that of its published messages and, once finished, the end marker, and its numbers are used up by them. |
| `Publication.PublisherAgrees` | src/feedpublisher.h:65-118 | A publisher object given the messages of a run holds the rings of that run, while publishing and after the end markers. |
| `Publication.PublishedDatagram` | src/feedpublisher.h:93-97 | Publishing in a run numbers and addresses the message as the publisher object does. |
| `Publication.EndDatagrams` | src/feedpublisher.h:119-128 | Finishing in a run numbers and addresses every end marker as the publisher object does. |
| `EndToEnd.CleanSessionAgrees` | src/book.h:85-97 | A session that lost nothing ends with the publisher's books, quotes and crossed count, however the callbacks were interleaved. |
| `EndToEnd.BooksShowTheVenue` | src/feedhandler.cpp:22-66 | From venue packets through the lossy network to a consumer: its books show exactly the decoder's table if every event was roomy. |

## Left out

- The buckets a run joins are distinct; the code would open one bucket per listed number. One venue session only: the session field is read and not used, as in the code.
- 64-bit wrap-around of the republished sequence numbers, statistics counters and signed level totals, which no session reaches; the feed handler's own counters wrap as in the code, and sizes announced in 32 bits are truncated as in the code.
- Sockets, polling, multicast groups, signals, sleeps and threads (`src/net.h`, `Subscriber::run`, `serve_repairs`): their effects are the nondeterministic steps and the method parameters. The 512-byte receive buffer never cuts a 45-byte datagram and is not modelled.
- The repair server serves one client and whole requests: the partial reads of `read_exact`, and further clients, which share nothing but the ring, are not part of this model.
- `parked`, `holes` and `gone` are values held in fields of the bucket, and the books of a book set are values in its table; aliasing inside the containers is not captured. `levels`, a global in the code, is a field keyed by symbol, side and price.
- `put_u16`, `put_u32` and `put_u64` are one method that writes byte by byte.
- The seeded loss generator and its percentage: any choice of lost datagrams is covered, no probability is claimed.
- That the end marker eventually arrives, that books never cross, that hashes are unique or buckets balanced: these depend on the network, the venue and the symbols.
- `src/visualizer.cpp`, printing and floating-point prices: user interface only.
- `src/exchange.cpp`, `src/checkcap.cpp`, `src/pcapng_reader.h`: replay tools with no part in the protocol; the constants of `src/env.h` are parameters, except the bucket count that sizes the repair buffer.
- FingerprintTellsApart: does not tell apart streams whose touch changes differ over more than four bytes in a row, because 64-bit hashes may collide there; `FingerprintsAgree` says exactly when they do.
