// What the publisher of a run has published, divided into its buckets: the
// step system and the publisher's own objects agree on rings and datagrams.
module Publication {
  import opened Messages
  import opened RepairWire
  import opened Tracking
  import opened Buckets
  import opened BookLaws
  import opened Publishers
  import opened Protocol
  import opened Safety

  /** Everything published in the first n steps, in order. */
  function PublishedIn(steps: seq<Step>, n: nat): seq<OrderMessage>
    requires n <= |steps|
    decreases n
  {
    if n == 0 then [] else
      PublishedIn(steps, n - 1) + (match steps[n - 1] case Publish(m) => [m] case _ => [])
  }

  function Ending(finished: bool): seq<OrderMessage> {
    if finished then [END_MESSAGE] else []
  }

  /** The log of every bucket is the published messages of its symbols, closed
      by one end marker once the publisher has finished. */
  ghost predicate LogsDivide(logs: seq<seq<OrderMessage>>, finished: bool, stream: seq<OrderMessage>, bucketCount: nat)
    requires bucketCount > 0
  {
    |logs| == bucketCount && forall i | 0 <= i < bucketCount ::
        logs[i] == OfBucket(stream, i, bucketCount) + Ending(finished)
  }

  lemma PollKeepsLogs(c: Setup, w: World, j: nat, connects: bool, writes: bool)
    requires j < |w.subs|
    ensures var v := AfterPoll(c, w, j, connects, writes); v.logs == w.logs && v.finished == w.finished
  {
    hide Nak, TNak, EncodeRequest;
  }

  lemma ReadKeepsLogs(w: World, count: nat)
    requires count <= |w.down|
    ensures AfterRead(w, count).logs == w.logs && AfterRead(w, count).finished == w.finished
  {
    hide ParseFrames, ApplyAll;
  }

  /** Only publishing and finishing touch the logs. */
  lemma LogsKept(c: Setup, w: World, step: Step)
    requires Shaped(c, w) && Enabled(c, w, step) && !step.Publish? && !step.Finish?
    ensures After(c, w, step).logs == w.logs && After(c, w, step).finished == w.finished
  {
    hide ReadRequest, EncodeFrames, Answers, DatagramFor, TReceive, TRelease, AfterPoll, AfterRead, Shaped;
    if step.Poll? {
      assert step.joined < |w.subs|;
      PollKeepsLogs(c, w, step.joined, step.connects, step.writes);
    } else if step.Read? {
      ReadKeepsLogs(w, step.count);
    }
  }

  lemma LogsDivideStep(c: Setup, w: World, step: Step, stream: seq<OrderMessage>)
    requires Shaped(c, w) && Enabled(c, w, step) && LogsDivide(w.logs, w.finished, stream, c.bucketCount)
    ensures var v := After(c, w, step);
      LogsDivide(v.logs, v.finished, stream + (match step case Publish(m) => [m] case _ => []), c.bucketCount)
  {
    hide OfBucket, BucketOf, Encode, Stored;
    if step.Publish? {
      OneMore(stream, step.m, c.bucketCount);
    } else {
      assert stream + [] == stream;
      if !step.Finish? {
        LogsKept(c, w, step);
        hide After;
      }
    }
  }

  /** One step of a run. */
  lemma StepTaken(c: Setup, ws: seq<World>, steps: seq<Step>, k: nat)
    requires IsRun(c, ws, steps) && k < |steps|
    ensures c.bucketCount > 0 && |ws| == |steps| + 1
    ensures Shaped(c, ws[k]) && Enabled(c, ws[k], steps[k]) && ws[k + 1] == After(c, ws[k], steps[k])
  {
    hide After, Enabled;
    var step := steps[k];
    assert Shaped(c, ws[k]);
  }

  lemma {:induction false} LogsDivideAlways(c: Setup, ws: seq<World>, steps: seq<Step>, n: nat)
    requires IsRun(c, ws, steps) && n < |ws|
    ensures LogsDivide(ws[n].logs, ws[n].finished, PublishedIn(steps, n), c.bucketCount)
    decreases n
  {
    hide After, Enabled, Safe, Shaped;
    if n == 0 {
      assert ws[0] == Start(c);
    } else {
      hide IsRun, LogsDivide;
      LogsDivideAlways(c, ws, steps, n - 1);
      StepTaken(c, ws, steps, n - 1);
      LogsDivideStep(c, ws[n - 1], steps[n - 1], PublishedIn(steps, n - 1));
    }
  }

  /** Every number of a bucket was used for a published message of its symbols
      or for the end marker. */
  lemma NumbersPublished(c: Setup, ws: seq<World>, steps: seq<Step>, n: nat, i: nat)
    requires IsRun(c, ws, steps) && n < |ws| && i < c.bucketCount
    ensures |ws[n].logs| == |ws[n].rings| == c.bucketCount
    ensures ws[n].rings[i]
        == RingOf(Divided(PublishedIn(steps, n), c.bucketCount)[i] + Ending(ws[n].finished), c.ringSize)
    ensures ws[n].rings[i].next - 1
         == |OfBucket(PublishedIn(steps, n), i, c.bucketCount)| + (if ws[n].finished then 1 else 0)
  {
    hide IsRun, RingOf, OfBucket;
    LogsDivideAlways(c, ws, steps, n);
    RunSafe(c, ws, steps, n);
    assert PublisherTrue(c.ringSize, ws[n].rings, ws[n].logs, ws[n].finished);
    hide Safe;
    assert ws[n].rings[i] == RingOf(ws[n].logs[i], c.ringSize);
  }

  /** A publisher object that was given the messages of a run holds the rings of
      that run: while publishing, and once it has stored the end markers. */
  lemma PublisherAgrees(p: FeedPublisher, c: Setup, ws: seq<World>, steps: seq<Step>, n: nat, i: nat)
    requires IsRun(c, ws, steps) && n < |ws| && i < c.bucketCount == |p.buckets|
    requires p.stream == PublishedIn(steps, n) && p.buckets[i].ring.Length == c.ringSize
    requires if ws[n].finished then FeedPublisher.Closed(p.buckets[i], Divided(p.stream, c.bucketCount)[i])
        else p.Valid()
    ensures |ws[n].rings| == c.bucketCount && p.buckets[i].State() == ws[n].rings[i]
  {
    hide IsRun, RingOf, Divided, BookLaws.OfBucket;
    NumbersPublished(c, ws, steps, n, i);
    var messages := Divided(p.stream, c.bucketCount)[i];
    if !ws[n].finished {
      assert FeedPublisher.Carries(p.buckets[i], messages);
      assert messages + [] == messages;
    }
  }

  /** Publishing numbers and addresses a message as the publisher object does. */
  lemma PublishedDatagram(c: Setup, ws: seq<World>, steps: seq<Step>, n: nat, m: OrderMessage)
    requires IsRun(c, ws, steps) && n < |steps| && n + 1 < |ws| && steps[n] == Publish(m)
    requires |PublishedIn(steps, n)| + 1 < 0x1_0000_0000_0000_0000
    ensures c.bucketCount > 0 && BucketOf(m.symbol, c.bucketCount) < |ws[n + 1].logs| <= 0x1_0000
    ensures var i := BucketOf(m.symbol, c.bucketCount);
      && 1 <= |ws[n + 1].logs[i]| < 0x1_0000_0000_0000_0000
      && DatagramFor(ws[n + 1], i, |ws[n + 1].logs[i]|) == DatagramOf(PublishedIn(steps, n), m, c.bucketCount)
  {
    hide IsRun, BucketOf, DgramEncode, Encode, Divided, BookLaws.OfBucket;
    StepTaken(c, ws, steps, n);
    LogsDivideAlways(c, ws, steps, n);
    RoomForOne(PublishedIn(steps, n), m, c.bucketCount);
    OneMore(PublishedIn(steps, n), m, c.bucketCount);
    assert ws[n].finished == false;
    var i := BucketOf(m.symbol, c.bucketCount);
    assert ws[n].logs[i] == Divided(PublishedIn(steps, n), c.bucketCount)[i];
    assert ws[n + 1].logs[i] == ws[n].logs[i] + [m];
  }

  /** Finishing numbers and addresses every end marker as it does. */
  lemma EndDatagrams(c: Setup, ws: seq<World>, steps: seq<Step>, n: nat, i: nat)
    requires IsRun(c, ws, steps) && n < |steps| && n + 1 < |ws| && steps[n].Finish? && i < c.bucketCount
    requires |PublishedIn(steps, n)| + 1 < 0x1_0000_0000_0000_0000
    ensures i < |ws[n + 1].logs| == c.bucketCount <= 0x1_0000 && 1 <= |ws[n + 1].logs[i]| < 0x1_0000_0000_0000_0000
    ensures DatagramFor(ws[n + 1], i, |ws[n + 1].logs[i]|)
        == EndDatagramOf(Ends(PublishedIn(steps, n), c.bucketCount), i)
  {
    hide IsRun, DgramEncode, Encode, Divided, BookLaws.OfBucket, Ends;
    StepTaken(c, ws, steps, n);
    LogsDivideAlways(c, ws, steps, n);
    assert ws[n].logs[i] == Divided(PublishedIn(steps, n), c.bucketCount)[i];
    assert ws[n + 1].logs[i] == ws[n].logs[i] + [END_MESSAGE];
  }
}
