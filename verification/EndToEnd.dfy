// From the venue's packets to the books of a consumer, through the lossy
// network: the parts put together.
module EndToEnd {
  import opened Bytes
  import opened Messages
  import opened Books
  import opened BookLaws
  import opened DecoderLaws
  import opened Protocol
  import opened Publication
  import opened Guarantees
  import opened FeedHandlers

  /** The subscriber joined every bucket, wanted everything from number 1,
      reached the end in every bucket, and lost nothing. */
  ghost predicate CleanSession(c: Setup, w: World) {
    && Shaped(c, w)
    && |c.joined| == c.bucketCount
    && (forall i | 0 <= i < c.bucketCount ::
          c.joined[i] == i && w.subs[i].b.done && w.subs[i].r.start == 1 && w.subs[i].b.stats.unrecoverable == 0)
  }

  /** `received` is some interleaving of what the callbacks were handed. */
  ghost predicate Interleaves(c: Setup, ws: seq<World>, steps: seq<Step>, n: nat, received: seq<OrderMessage>)
    requires IsRun(c, ws, steps) && n < |ws| && |c.joined| == c.bucketCount
  {
    forall i | 0 <= i < c.bucketCount :: OfBucket(received, i, c.bucketCount) == CallbackLog(c, ws, steps, n, i)
  }

  lemma CleanCallback(c: Setup, ws: seq<World>, steps: seq<Step>, n: nat, i: nat)
    requires IsRun(c, ws, steps) && n < |ws| && CleanSession(c, ws[n]) && i < c.bucketCount
    ensures CallbackLog(c, ws, steps, n, i) == OfBucket(PublishedIn(steps, n), i, c.bucketCount)
  {
    LogsDivideAlways(c, ws, steps, n);
    DoneMeansComplete(c, ws, steps, n, i);
    CleanConsumerComplete(c, ws, steps, n, i);
    var log := ws[n].logs[i];
    assert log == OfBucket(PublishedIn(steps, n), i, c.bucketCount) + [END_MESSAGE];
  }

  /** However the network behaved and the callbacks were interleaved, a clean
      session ends with the publisher's own books, quotes and crossed count. */
  lemma CleanSessionAgrees(c: Setup, ws: seq<World>, steps: seq<Step>, n: nat, received: seq<OrderMessage>)
    requires IsRun(c, ws, steps) && n < |ws| && CleanSession(c, ws[n]) && Interleaves(c, ws, steps, n, received)
    ensures var stream := PublishedIn(steps, n);
      && (forall i | 0 <= i < c.bucketCount ::
          OfBucket(received, i, c.bucketCount) == OfBucket(stream, i, c.bucketCount))
      && Replay(EMPTY_SET, received).books == Replay(EMPTY_SET, stream).books
      && Replay(EMPTY_SET, received).lastQuote == Replay(EMPTY_SET, stream).lastQuote
      && Replay(EMPTY_SET, received).crossed == Replay(EMPTY_SET, stream).crossed
  {
    var stream := PublishedIn(steps, n);
    forall i | 0 <= i < c.bucketCount
      ensures OfBucket(received, i, c.bucketCount) == OfBucket(stream, i, c.bucketCount)
    {
      CleanCallback(c, ws, steps, n, i);
    }
    InterleavingIrrelevant(received, stream, c.bucketCount);
  }

  /** Venue packets in, consumer books out: if what was published is what the
      feed handler makes of its packets, and no level outgrew 32 bits on the way, a clean
      session's books show exactly the decoder's table. */
  lemma BooksShowTheVenue(c: Setup, ws: seq<World>, steps: seq<Step>, n: nat, packets: seq<seq<byte>>,
      received: seq<OrderMessage>)
    requires IsRun(c, ws, steps) && n < |ws| && CleanSession(c, ws[n]) && Interleaves(c, ws, steps, n, received)
    requires PublishedIn(steps, n) == Decoded(START, EventsOf(TakenAll(packets).handled)).1
    requires AlwaysRoomy(EventsOf(TakenAll(packets).handled))
    ensures Shows(Replay(EMPTY_SET, received).books, Decoded(START, EventsOf(TakenAll(packets).handled)).0.levels)
  {
    CleanSessionAgrees(c, ws, steps, n, received);
    hide IsRun, CleanSession, Interleaves, AlwaysRoomy, Shows, Decoded, EventsOf, TakenAll, Replay, OfBucket;
    ConsumerShowsTable(TakenAll(packets).handled, received, c.bucketCount);
  }
}
