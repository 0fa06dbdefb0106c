// How much one bucket may be owed on the repair connection: when one batch per
// bucket bounds it, and when it does not.
module Outstanding {
  import opened Bytes
  import opened Collections
  import opened Messages
  import opened RepairWire
  import opened Buckets
  import opened Publishers
  import opened Tracking
  import opened Protocol
  import opened Safety
  import opened Guarantees
  import opened Continuations
  import opened OneLoss

  // ---- two ticks of one bucket ------------------------------------------------

  /** The connection is up, or a connect may be tried now. */
  predicate Reachable(r: Repair, now: nat) {
    r.open || r.blockedUntil <= now
  }

  /** A tick that can reach the server and whose write succeeds. */
  lemma GoodTick(b: Bucket, r: Repair, now: nat, timing: Timing)
    requires Reachable(r, now)
    ensures var n, e := Nak(b, r, now, timing, true, true), Expire(b, now, timing.giveup);
      && n.asked == Batch(e, now, timing)
      && n.repair == (if n.asked == [] then r else r.(open := true)) && Reachable(n.repair, now)
      && n.bucket == (if n.asked == [] then e else Asked(e, n.asked, now))
  {
    hide Expire, Batch, Asked;
  }

  /** Holes stamped now are not due now. */
  lemma AskedNotDue(b: Bucket, batch: seq<u64>, now: nat, timing: Timing)
    requires now > 0
    ensures EligibleHoles(Asked(b, batch, now), now, timing)
        == set s | s in EligibleHoles(b, now, timing) && s !in batch
  {
  }

  /** Nothing expires twice at one moment. */
  lemma LiveStays(b: Bucket, batch: seq<u64>, now: nat, giveup: nat)
    ensures var e := Expire(b, now, giveup);
      Expire(e, now, giveup) == e && Expire(Asked(e, batch, now), now, giveup) == Asked(e, batch, now)
  {
    var e := Expire(b, now, giveup);
    assert Expired(e, now, giveup) == {} && Expired(Asked(e, batch, now), now, giveup) == {};
  }

  /** A batch takes all that is due, unless more than a batch is. */
  lemma BatchTakes(b: Bucket, now: nat, timing: Timing)
    ensures var due, batch := EligibleHoles(b, now, timing), Batch(b, now, timing);
      && (|due| <= MAX_REPAIR_BATCH ==> batch == Sequences(due))
      && (|due| > MAX_REPAIR_BATCH ==> |batch| == MAX_REPAIR_BATCH && exists s :: s in due && s !in batch)
  {
    var due, batch := EligibleHoles(b, now, timing), Batch(b, now, timing);
    var all := Sequences(due);
    hide EligibleHoles, Ascending;
    if |due| > MAX_REPAIR_BATCH {
      var s := all[MAX_REPAIR_BATCH];
      assert s in all && s in due;
    }
  }

  /** What is due after a batch was asked for is what the batch left out. */
  lemma LeftOver(e: Bucket, now: nat, timing: Timing)
    requires now > 0
    ensures var c := Asked(e, Batch(e, now, timing), now);
      Batch(c, now, timing) != [] <==> |EligibleHoles(e, now, timing)| > MAX_REPAIR_BATCH
  {
    var batch := Batch(e, now, timing);
    var c := Asked(e, batch, now);
    hide EligibleHoles, Batch, Asked;
    BatchTakes(e, now, timing);
    BatchTakes(c, now, timing);
    AskedNotDue(e, batch, now, timing);
    var due, left := EligibleHoles(e, now, timing), EligibleHoles(c, now, timing);
    assert left == {} <==> |left| == 0;
    if |due| > MAX_REPAIR_BATCH {
      var s :| s in due && s !in batch;
      assert s in left;
    } else {
      assert forall s | s in due :: s in Sequences(due);
      assert left == {};
    }
  }

  /** Two ticks at one moment: the second asks for numbers, and none that the
      first asked for, exactly when more is due than fits one request. */
  lemma SecondBatch(b: Bucket, r: Repair, now: nat, timing: Timing)
    requires now > 0 && Reachable(r, now)
    ensures var first := Nak(b, r, now, timing, true, true);
      var second := Nak(first.bucket, first.repair, now, timing, true, true);
      && (second.asked != [] <==> |EligibleHoles(Expire(b, now, timing.giveup), now, timing)| > MAX_REPAIR_BATCH)
      && (forall x | x in second.asked :: x !in first.asked)
  {
    hide Batch, Asked, EligibleHoles, Expire, Nak;
    var e := Expire(b, now, timing.giveup);
    var batch := Batch(e, now, timing);
    var c := if batch == [] then e else Asked(e, batch, now);
    GoodTick(b, r, now, timing);
    GoodTick(c, Nak(b, r, now, timing, true, true).repair, now, timing);
    LiveStays(b, batch, now, timing.giveup);
    LeftOver(e, now, timing);
    BatchTakes(e, now, timing);
    NotAgain(e, now, timing);
  }

  lemma NotAgain(e: Bucket, now: nat, timing: Timing)
    requires now > 0
    ensures var batch := Batch(e, now, timing);
      forall x | x in Batch(Asked(e, batch, now), now, timing) :: x !in batch
  {
    var batch := Batch(e, now, timing);
    hide Batch, Asked;
    var c := Asked(e, batch, now);
    BatchShape(c, now, timing);
    AskedNotDue(e, batch, now, timing);
    assert forall x | x in Batch(c, now, timing) :: x in EligibleHoles(c, now, timing);
  }

  lemma {:induction false} HowMany(s: set<u64>, n: nat)
    requires forall x :: x in s <==> 1 <= x <= n
    ensures |s| == n
    decreases n
  {
    if n == 0 {
      assert s == {};
    } else {
      assert n in s;
      HowMany(s - {n}, n - 1);
    }
  }

  /** Such a bucket: the first datagram to arrive is number 514. */
  lemma ManyHoles(m: OrderMessage, now: nat, timing: Timing)
    requires timing.nakDelay < now <= timing.giveup
    ensures var b := Accept(NewBucket(0, 1), 514, m, 0, 0);
      |EligibleHoles(Expire(b, now, timing.giveup), now, timing)| == 513
  {
    var b := Accept(NewBucket(0, 1), 514, m, 0, 0);
    assert forall s | s in b.holes :: b.holes[s] == Hole(0, 0);
    assert Expired(b, now, timing.giveup) == {} && Expire(b, now, timing.giveup) == b;
    assert EligibleHoles(b, now, timing) == b.holes.Keys;
    HowMany(b.holes.Keys, 513);
  }

  /** Nor does it take more than a batch of holes. When all holes fit one
      request, are due, and live on, a second tick asks for the very same
      numbers, answered or not, exactly when the repeat interval has passed. */
  lemma RepeatedBatch(b: Bucket, r: Repair, now: nat, later: nat, timing: Timing)
    requires Reachable(r, now) && 0 < now <= later && 0 < |b.holes| <= MAX_REPAIR_BATCH
    requires forall s | s in b.holes :: Eligible(b.holes[s], now, timing)
    requires forall s | s in b.holes :: later - b.holes[s].noticed <= timing.giveup
    ensures var first := Nak(b, r, now, timing, true, true);
      var second := Nak(first.bucket, first.repair, later, timing, true, true);
      && first.asked == Sequences(b.holes.Keys)
      && second.asked == if later - now > timing.nakRepeat then first.asked else []
  {
    hide Nak, Batch, Asked, Expire, EligibleHoles;
    var batch := Sequences(b.holes.Keys);
    AllDue(b, now, timing);
    GoodTick(b, r, now, timing);
    BatchTakes(b, now, timing);
    DueAgain(b, batch, now, later, timing);
    GoodTick(Asked(b, batch, now), Nak(b, r, now, timing, true, true).repair, later, timing);
    BatchTakes(Asked(b, batch, now), later, timing);
  }

  lemma AllDue(b: Bucket, now: nat, timing: Timing)
    requires forall s | s in b.holes :: Eligible(b.holes[s], now, timing) && now - b.holes[s].noticed <= timing.giveup
    ensures Expire(b, now, timing.giveup) == b && EligibleHoles(b, now, timing) == b.holes.Keys
  {
    assert Expired(b, now, timing.giveup) == {};
  }

  lemma DueAgain(b: Bucket, batch: seq<u64>, now: nat, later: nat, timing: Timing)
    requires 0 < now <= later && forall s | s in b.holes :: s in batch
    requires forall s | s in b.holes :: later - b.holes[s].noticed <= timing.giveup
    ensures var c := Asked(b, batch, now);
      && Expire(c, later, timing.giveup) == c
      && EligibleHoles(c, later, timing) == if later - now > timing.nakRepeat then b.holes.Keys else {}
  {
    var c := Asked(b, batch, now);
    assert Expired(c, later, timing.giveup) == {};
  }

  // ---- what a bucket is owed, in every run -------------------------------------

  /** The numbers that requests in flight name for one bucket. */
  function AskedOf(pending: seq<Request>, bucket: u16): nat
    decreases |pending|
  {
    if pending == [] then 0
    else (if pending[0].bucket == bucket then |pending[0].sequences| else 0) + AskedOf(pending[1..], bucket)
  }

  /** The frames among some that are one bucket's. */
  function FramesOf(fs: seq<Frame>, bucket: u16): nat
    decreases |fs|
  {
    if fs == [] then 0 else (if fs[0].bucket == bucket then 1 else 0) + FramesOf(fs[1..], bucket)
  }

  /** The answers a bucket still waits for: to requests the server has not read,
      and those it has written that were not read whole. */
  function OwedTo(w: World, bucket: u16): nat {
    AskedOf(w.pending, bucket) + FramesOf(w.owed, bucket)
  }

  lemma {:induction false} AskedOfAppend(pending: seq<Request>, r: Request, bucket: u16)
    ensures AskedOf(pending + [r], bucket)
         == AskedOf(pending, bucket) + (if r.bucket == bucket then |r.sequences| else 0)
    decreases |pending|
  {
    if pending == [] {
      assert ([r])[1..] == [];
    } else {
      assert (pending + [r])[1..] == pending[1..] + [r];
      AskedOfAppend(pending[1..], r, bucket);
    }
  }

  lemma {:induction false} FramesOfAppend(p: seq<Frame>, q: seq<Frame>, bucket: u16)
    ensures FramesOf(p + q, bucket) == FramesOf(p, bucket) + FramesOf(q, bucket)
    decreases |p|
  {
    if p == [] {
      assert p + q == q;
    } else {
      assert (p + q)[1..] == p[1..] + q;
      FramesOfAppend(p[1..], q, bucket);
    }
  }

  /** A request is answered by as many frames as it names numbers. */
  lemma {:induction false} AnswersOf(r: Ring, asking: u16, sequences: seq<u64>, bucket: u16)
    requires |r.slots| > 0
    ensures FramesOf(Answers(r, asking, sequences), bucket) == if asking == bucket then |sequences| else 0
    decreases |sequences|
  {
    if sequences != [] {
      AnswersOf(r, asking, sequences[1..], bucket);
      assert Answers(r, asking, sequences)[1..] == Answers(r, asking, sequences[1..]);
    }
  }

  /** What a step makes of what bucket j is owed: asking adds, serving turns
      what was asked into frames, reading takes frames off, and losing the
      connection forgives everything. */
  function OwedAfter(c: Setup, w: World, step: Step, j: nat): int
    requires |w.subs| == |c.joined| && j < |c.joined|
    requires (step.Poll? ==> step.joined < |w.subs|) && (step.Read? ==> step.count <= |w.down|)
  {
    var id := c.joined[j];
    match step
    case Poll(k, connects, writes) =>
      var n := Nak(w.subs[k].b, w.repair, w.clock, c.timing, connects, writes);
      if !n.repair.open then 0 else OwedTo(w, id) + (if k == j then |n.asked| else 0)
    case Read(count) => OwedTo(w, id) - FramesOf(ParseFrames(w.repair.held + w.down[..count]).frames, id)
    case Close => 0
    case _ => OwedTo(w, id)
  }

  lemma OwedStep(c: Setup, w: World, step: Step, j: nat)
    requires Safe(c, w) && Enabled(c, w, step) && j < |c.joined|
    ensures |w.subs| == |c.joined|
    ensures (step.Poll? ==> step.joined < |w.subs|) && (step.Read? ==> step.count <= |w.down|)
    ensures OwedTo(After(c, w, step), c.joined[j]) == OwedAfter(c, w, step, j)
  {
    hide Safe, OwedTo, Shaped, After, Enabled, OwedAfter;
    StillShaped(c, w);
    ShapedSubs(c, w);
    StepInRange(c, w, step);
    match step
    case Poll(k, connects, writes) => PollOwes(c, w, k, connects, writes, j);
    case Serve => ServeOwes(c, w, j);
    case Read(count) => ReadOwes(c, w, count, j);
    case _ => TrafficKept(c, w, step, j);
  }

  lemma ShapedSubs(c: Setup, w: World)
    requires Shaped(c, w)
    ensures |w.subs| == |c.joined| && forall j | 0 <= j < |w.subs| :: w.subs[j].b.id == c.joined[j]
    ensures forall i, j | 0 <= i < j < |c.joined| :: c.joined[i] != c.joined[j]
  {
  }

  lemma TrafficKept(c: Setup, w: World, step: Step, j: nat)
    requires Shaped(c, w) && Enabled(c, w, step) && j < |c.joined| == |w.subs|
    requires !step.Poll? && !step.Serve? && !step.Read?
    ensures OwedTo(After(c, w, step), c.joined[j]) == OwedAfter(c, w, step, j)
  {
    hide DatagramFor, TReceive, TRelease, Shaped, Stored, BucketOf;
  }

  lemma PollEffectOwes(w: World, subs: seq<Tracked>, n: NakResult, request: Request, bucket: u16)
    requires request.sequences == n.asked
    ensures OwedTo(PollEffect(w, subs, n, request), bucket)
         == if !n.repair.open then 0 else OwedTo(w, bucket) + (if request.bucket == bucket then |n.asked| else 0)
  {
    hide EncodeRequest;
    AskedOfAppend(w.pending, request, bucket);
  }

  lemma PollOwes(c: Setup, w: World, k: nat, connects: bool, writes: bool, j: nat)
    requires Shaped(c, w) && Enabled(c, w, Poll(k, connects, writes))
    requires k < |w.subs| && j < |c.joined| == |w.subs|
    ensures OwedTo(After(c, w, Poll(k, connects, writes)), c.joined[j])
         == OwedAfter(c, w, Poll(k, connects, writes), j)
  {
    hide Shaped, Nak, TNak, AfterPoll, PollEffect, OwedTo, Enabled;
    ShapedSubs(c, w);
    var t := w.subs[k];
    var n := Nak(t.b, w.repair, w.clock, c.timing, connects, writes);
    PollIs(c, w, k, connects, writes);
    var subs := w.subs[k := TNak(t, w.repair, w.clock, c.timing, connects, writes)];
    PollEffectOwes(w, subs, n, Request(t.b.id, n.asked), c.joined[j]);
  }

  lemma ServeOwes(c: Setup, w: World, j: nat)
    requires Safe(c, w) && Shaped(c, w) && Enabled(c, w, Serve) && j < |c.joined| == |w.subs|
    ensures OwedTo(After(c, w, Serve), c.joined[j]) == OwedAfter(c, w, Serve, j)
  {
    hide Safe, Shaped, After, Enabled, Answers, EncodeFrames, EncodeRequests, ReadRequest, HonestRequest;
    ServeReads(c, w);
    var request := w.pending[0];
    SafeRing(c, w, request);
    ServeEffect(c, w, request, EncodeRequests(w.pending[1..]));
    var ring := w.rings[request.bucket];
    AnswersOf(ring, request.bucket, request.sequences, c.joined[j]);
    FramesOfAppend(w.owed, Answers(ring, request.bucket, request.sequences), c.joined[j]);
  }

  lemma SafeRing(c: Setup, w: World, r: Request)
    requires Safe(c, w) && HonestRequest(w.subs, w.logs, r)
    ensures r.bucket < |w.rings| && |w.rings[r.bucket].slots| > 0
  {
    hide SentTrue, WireTrue, RequestsHonest, FramesHonest, SubsTrue, RingOf, LogShape;
  }

  lemma ReadOwes(c: Setup, w: World, count: nat, j: nat)
    requires Safe(c, w) && Shaped(c, w) && Enabled(c, w, Read(count)) && j < |c.joined| == |w.subs|
    requires count <= |w.down|
    ensures OwedTo(After(c, w, Read(count)), c.joined[j]) == OwedAfter(c, w, Read(count), j)
  {
    hide Safe, Shaped, After, Enabled, ParseFrames, ApplyAll, EncodeFrames;
    SafeWire(c, w);
    ReadParses(w.repair.held, w.down, count, w.owed);
    ReadEffect(c, w, count);
    var frames := ParseFrames(w.repair.held + w.down[..count]).frames;
    assert w.owed == frames + w.owed[|frames|..];
    FramesOfAppend(frames, w.owed[|frames|..], c.joined[j]);
  }

  lemma SafeWire(c: Setup, w: World)
    requires Safe(c, w)
    ensures w.repair.held + w.down <= EncodeFrames(w.owed)
    ensures !w.repair.open ==> w.pending == [] && w.owed == []
  {
    assert WireTrue(w.repair.open, w.repair.held, w.up, w.down, w.cut, w.pending, w.owed);
    hide Shaped, SubsTrue, SentTrue, PublisherTrue, RequestsHonest, FramesHonest, EncodeFrames, EncodeRequests;
  }

  /** A tick of bucket j that goes out on a connection already up, when what is
      owed and what is due do not fit one batch together. */
  ghost predicate Overasks(c: Setup, w: World, step: Step, j: nat)
    requires j < |w.subs| && j < |c.joined|
  {
    && step.Poll? && step.joined == j && step.writes && w.repair.open
    && OwedTo(w, c.joined[j]) + |Due(c, w, j)| > MAX_REPAIR_BATCH
  }

  /** What a tick of the bucket itself asks for. */
  lemma OwnTick(c: Setup, w: World, connects: bool, writes: bool, j: nat)
    requires j < |w.subs|
    ensures var n := Nak(w.subs[j].b, w.repair, w.clock, c.timing, connects, writes);
      && |n.asked| <= MAX_REPAIR_BATCH
      && (w.repair.open && writes ==> n.repair.open && n.asked == Due(c, w, j))
      && (w.repair.open && !writes && n.repair.open ==> n.asked == [])
  {
    hide Expire, Batch, Asked;
  }

  lemma ClosedOwesNothing(c: Setup, w: World, bucket: u16)
    requires Safe(c, w)
    ensures !w.repair.open ==> OwedTo(w, bucket) == 0
  {
    hide Safe;
    SafeWire(c, w);
  }

  lemma BoundStep(c: Setup, w: World, step: Step, j: nat)
    requires Safe(c, w) && Enabled(c, w, step) && j < |c.joined|
    requires OwedTo(w, c.joined[j]) <= MAX_REPAIR_BATCH
    ensures |w.subs| == |c.joined|
    ensures OwedTo(After(c, w, step), c.joined[j]) <= MAX_REPAIR_BATCH <==> !Overasks(c, w, step, j)
  {
    hide Safe, Shaped, After, Enabled, Nak, Due, OwedTo, ParseFrames;
    StillShaped(c, w);
    ShapedSubs(c, w);
    ClosedOwesNothing(c, w, c.joined[j]);
    OwedStep(c, w, step, j);
    if step.Poll? && step.joined == j {
      OwnTick(c, w, step.connects, step.writes, j);
    }
  }

  /** In every run, what a bucket is owed stays within one batch if and only if
      no tick asks over what is still owed. */
  lemma {:induction false} OwedWithinBatch(c: Setup, ws: seq<World>, steps: seq<Step>, n: nat, j: nat)
    requires IsRun(c, ws, steps) && n < |ws| && j < |c.joined|
    ensures |ws| == |steps| + 1 && forall k | 0 <= k < |ws| :: |ws[k].subs| == |c.joined|
    ensures (forall k | 0 <= k <= n :: OwedTo(ws[k], c.joined[j]) <= MAX_REPAIR_BATCH)
       <==> (forall k | 0 <= k < n :: !Overasks(c, ws[k], steps[k], j))
    decreases n
  {
    hide IsRun, After, Enabled, Safe, Shaped, OwedTo, Overasks;
    RunShape(c, ws, steps);
    if n == 0 {
      NothingOwed(c, ws, steps, j);
    } else {
      OwedWithinBatch(c, ws, steps, n - 1, j);
      RunStep(c, ws, steps, n - 1);
      if OwedTo(ws[n - 1], c.joined[j]) <= MAX_REPAIR_BATCH {
        BoundStep(c, ws[n - 1], steps[n - 1], j);
      }
    }
  }

  lemma NothingOwed(c: Setup, ws: seq<World>, steps: seq<Step>, j: nat)
    requires IsRun(c, ws, steps) && j < |c.joined|
    ensures |ws| > 0 && OwedTo(ws[0], c.joined[j]) == 0
  {
    hide After, Enabled, Shaped;
    assert ws[0] == Start(c);
  }

  // ---- what the repair buffer has to hold --------------------------------------

  /** The frames among some that are of the listed buckets, bucket by bucket. */
  function FramesOfAll(fs: seq<Frame>, buckets: seq<u16>): nat
    decreases |buckets|
  {
    if buckets == [] then 0 else FramesOf(fs, buckets[0]) + FramesOfAll(fs, buckets[1..])
  }

  lemma {:induction false} FirstFrameCounts(fs: seq<Frame>, buckets: seq<u16>)
    requires fs != [] && forall i, k | 0 <= i < k < |buckets| :: buckets[i] != buckets[k]
    ensures FramesOfAll(fs, buckets) == FramesOfAll(fs[1..], buckets) + (if fs[0].bucket in buckets then 1 else 0)
    decreases |buckets|
  {
    if buckets != [] {
      FirstFrameCounts(fs, buckets[1..]);
      assert forall b :: b in buckets <==> b == buckets[0] || b in buckets[1..];
    }
  }

  /** Every frame is counted once. */
  lemma {:induction false} FramesCounted(fs: seq<Frame>, buckets: seq<u16>)
    requires forall i, k | 0 <= i < k < |buckets| :: buckets[i] != buckets[k]
    requires forall k | 0 <= k < |fs| :: fs[k].bucket in buckets
    ensures FramesOfAll(fs, buckets) == |fs|
    decreases |fs|
  {
    if fs == [] {
      NoFrames(buckets);
    } else {
      FirstFrameCounts(fs, buckets);
      assert forall k | 0 <= k < |fs[1..]| :: fs[1..][k] == fs[k + 1];
      FramesCounted(fs[1..], buckets);
    }
  }

  lemma {:induction false} NoFrames(buckets: seq<u16>)
    ensures FramesOfAll([], buckets) == 0
    decreases |buckets|
  {
    if buckets != [] {
      NoFrames(buckets[1..]);
    }
  }

  lemma {:induction false} FramesBounded(fs: seq<Frame>, buckets: seq<u16>)
    requires forall j | 0 <= j < |buckets| :: FramesOf(fs, buckets[j]) <= MAX_REPAIR_BATCH
    ensures FramesOfAll(fs, buckets) <= MAX_REPAIR_BATCH * |buckets|
    decreases |buckets|
  {
    if buckets != [] {
      FramesBounded(fs, buckets[1..]);
    }
  }

  /** Requests and answers on the connection concern joined buckets. */
  ghost predicate TrafficJoined(c: Setup, pending: seq<Request>, owed: seq<Frame>) {
    && (forall k | 0 <= k < |pending| :: pending[k].bucket in c.joined)
    && (forall k | 0 <= k < |owed| :: owed[k].bucket in c.joined)
  }

  lemma JoinedStep(c: Setup, w: World, step: Step)
    requires Safe(c, w) && Enabled(c, w, step) && TrafficJoined(c, w.pending, w.owed)
    ensures TrafficJoined(c, After(c, w, step).pending, After(c, w, step).owed)
  {
    hide Safe, Shaped, After, Enabled, TrafficJoined;
    StillShaped(c, w);
    ShapedSubs(c, w);
    StepInRange(c, w, step);
    match step
    case Poll(k, connects, writes) => PollJoined(c, w, k, connects, writes);
    case Serve => ServeJoined(c, w);
    case Read(count) => ReadJoined(c, w, count);
    case _ => OthersJoined(c, w, step);
  }

  lemma OthersJoined(c: Setup, w: World, step: Step)
    requires Shaped(c, w) && Enabled(c, w, step) && TrafficJoined(c, w.pending, w.owed)
    requires !step.Poll? && !step.Serve? && !step.Read?
    ensures TrafficJoined(c, After(c, w, step).pending, After(c, w, step).owed)
  {
    hide DatagramFor, TReceive, TRelease, Shaped, Stored, BucketOf;
  }

  lemma PollJoined(c: Setup, w: World, k: nat, connects: bool, writes: bool)
    requires Shaped(c, w) && Enabled(c, w, Poll(k, connects, writes)) && k < |w.subs|
    requires TrafficJoined(c, w.pending, w.owed)
    ensures var v := After(c, w, Poll(k, connects, writes)); TrafficJoined(c, v.pending, v.owed)
  {
    hide Shaped, Nak, TNak, AfterPoll, PollEffect, TrafficJoined, Enabled;
    ShapedSubs(c, w);
    var t := w.subs[k];
    var n := Nak(t.b, w.repair, w.clock, c.timing, connects, writes);
    PollIs(c, w, k, connects, writes);
    assert t.b.id == c.joined[k] && c.joined[k] in c.joined;
    var subs := w.subs[k := TNak(t, w.repair, w.clock, c.timing, connects, writes)];
    EffectJoined(c, w, subs, n, Request(t.b.id, n.asked));
  }

  lemma EffectJoined(c: Setup, w: World, subs: seq<Tracked>, n: NakResult, request: Request)
    requires TrafficJoined(c, w.pending, w.owed) && request.bucket in c.joined
    ensures TrafficJoined(c, PollEffect(w, subs, n, request).pending, PollEffect(w, subs, n, request).owed)
  {
    hide EncodeRequest;
  }

  lemma ServeJoined(c: Setup, w: World)
    requires Safe(c, w) && Shaped(c, w) && Enabled(c, w, Serve) && TrafficJoined(c, w.pending, w.owed)
    ensures TrafficJoined(c, After(c, w, Serve).pending, After(c, w, Serve).owed)
  {
    hide Safe, Shaped, After, Enabled, EncodeFrames, EncodeRequests, ReadRequest, HonestRequest;
    ServeReads(c, w);
    var request := w.pending[0];
    SafeRing(c, w, request);
    ServeEffect(c, w, request, EncodeRequests(w.pending[1..]));
    var fs := Answers(w.rings[request.bucket], request.bucket, request.sequences);
    assert forall k | 0 <= k < |fs| :: fs[k].bucket == request.bucket;
  }

  lemma ReadJoined(c: Setup, w: World, count: nat)
    requires Safe(c, w) && Shaped(c, w) && Enabled(c, w, Read(count)) && count <= |w.down|
    requires TrafficJoined(c, w.pending, w.owed)
    ensures TrafficJoined(c, After(c, w, Read(count)).pending, After(c, w, Read(count)).owed)
  {
    hide Safe, Shaped, After, Enabled, ParseFrames, ApplyAll, EncodeFrames;
    SafeWire(c, w);
    ReadParses(w.repair.held, w.down, count, w.owed);
    ReadEffect(c, w, count);
  }

  lemma {:induction false} TrafficAlwaysJoined(c: Setup, ws: seq<World>, steps: seq<Step>, n: nat)
    requires IsRun(c, ws, steps) && n < |ws|
    ensures TrafficJoined(c, ws[n].pending, ws[n].owed)
    decreases n
  {
    hide After, Enabled, Safe, Shaped, TrafficJoined;
    if n == 0 {
      assert ws[0].pending == [] && ws[0].owed == [];
      NoTraffic(c);
    } else {
      TrafficAlwaysJoined(c, ws, steps, n - 1);
      RunStep(c, ws, steps, n - 1);
      JoinedStep(c, ws[n - 1], steps[n - 1]);
    }
  }

  lemma NoTraffic(c: Setup)
    ensures TrafficJoined(c, [], [])
  {
  }

  /** What the size of the repair buffer is meant for: as long as no bucket is
      owed more than a batch, all bytes held and in flight fit the buffer. */
  lemma BufferHoldsAll(c: Setup, ws: seq<World>, steps: seq<Step>, n: nat)
    requires IsRun(c, ws, steps) && n < |ws| && |c.joined| <= BUCKETS
    requires forall j | 0 <= j < |c.joined| :: OwedTo(ws[n], c.joined[j]) <= MAX_REPAIR_BATCH
    ensures |ws[n].repair.held| + |ws[n].down| <= MAX_REPAIR_BATCH * REPAIR_FRAME_MAX * |c.joined| <= REPAIR_BUF_CAP
  {
    hide IsRun, Safe, EncodeFrames, Shaped;
    var w := ws[n];
    TrafficAlwaysJoined(c, ws, steps, n);
    RunSafe(c, ws, steps, n);
    StillShaped(c, w);
    ShapedSubs(c, w);
    SafeWire(c, w);
    BytesFit(w.repair.held, w.down, w.owed, c.joined);
  }

  lemma BytesFit(held: seq<byte>, down: seq<byte>, owed: seq<Frame>, joined: seq<u16>)
    requires held + down <= EncodeFrames(owed) && |joined| <= BUCKETS
    requires forall i, k | 0 <= i < k < |joined| :: joined[i] != joined[k]
    requires forall k | 0 <= k < |owed| :: owed[k].bucket in joined
    requires forall j | 0 <= j < |joined| :: FramesOf(owed, joined[j]) <= MAX_REPAIR_BATCH
    ensures |held| + |down| <= MAX_REPAIR_BATCH * REPAIR_FRAME_MAX * |joined| <= REPAIR_BUF_CAP
  {
    hide EncodeFrames, FramesOf, FramesOfAll;
    FramesCounted(owed, joined);
    FramesBounded(owed, joined);
    FramesLength(owed);
    BatchesFit(|held + down|, |owed|, |joined|);
  }

  lemma BatchesFit(bytes: nat, frames: nat, buckets: nat)
    requires bytes <= REPAIR_FRAME_MAX * frames && frames <= MAX_REPAIR_BATCH * buckets && buckets <= BUCKETS
    ensures bytes <= MAX_REPAIR_BATCH * REPAIR_FRAME_MAX * buckets <= REPAIR_BUF_CAP
  {
  }

  // ---- a run that is owed more -------------------------------------------------

  function Copies(m: OrderMessage, n: nat): (log: seq<OrderMessage>)
    ensures |log| == n && forall i | 0 <= i < n :: log[i] == m
  {
    seq(n, _ => m)
  }

  /** A run of one bucket in which the same message was published n times. */
  lemma {:induction false} Publishes(c: Setup, m: OrderMessage, n: nat) returns (ws: seq<World>, steps: seq<Step>)
    requires c.ringSize > 0 && c == OneBucket(c.ringSize, c.timing)
    requires m.kind != END && Terminated(m.symbol) && n + 1 < 0x1_0000_0000_0000_0000
    ensures IsRun(c, ws, steps) && |ws| == |steps| + 1
    ensures var w := ws[|steps|]; w == Start(c).(rings := w.rings, logs := [Copies(m, n)])
    decreases n
  {
    if n == 0 {
      ws, steps := [Start(c)], [];
      StartsEmpty(c);
      assert Copies(m, 0) == [];
    } else {
      hide IsRun, Start, Leads, Shaped, RingOf, Copies;
      ws, steps := Publishes(c, m, n - 1);
      var w := ws[|steps|];
      ShapedThroughout(c, ws, steps, |steps|);
      StartsEmpty(c);
      var v := PublishLeads(c, w, m, n - 1);
      Extend(c, ws, steps, Publish(m), v);
      ws, steps := ws + [v], steps + [Publish(m)];
    }
  }

  lemma StartsEmpty(c: Setup)
    requires c.bucketCount == 1
    ensures Start(c).logs == [[]] && !Start(c).finished
  {
  }

  lemma PublishLeads(c: Setup, w: World, m: OrderMessage, n: nat) returns (v: World)
    requires Shaped(c, w) && c.bucketCount == 1 && w.logs == [Copies(m, n)] && !w.finished
    requires m.kind != END && Terminated(m.symbol) && n + 2 < 0x1_0000_0000_0000_0000
    ensures Leads(c, w, Publish(m), v) && v == w.(rings := v.rings, logs := [Copies(m, n + 1)])
  {
    hide Stored, Encode, BucketOf;
    OnlyBucket(m.symbol);
    v := After(c, w, Publish(m));
    assert w.logs[0] + [m] == Copies(m, n + 1);
  }

  /** Number n is the first to arrive, and time passes. */
  lemma SkippedTo(c: Setup, m: OrderMessage, n: nat, late: nat) returns (ws: seq<World>, steps: seq<Step>)
    requires c.ringSize > 0 && c == OneBucket(c.ringSize, c.timing)
    requires m.kind != END && Terminated(m.symbol) && 0 < n && n + 1 < 0x1_0000_0000_0000_0000
    ensures IsRun(c, ws, steps) && |ws| == |steps| + 1
    ensures var w := ws[|steps|];
      && |w.subs| == 1 && w.subs[0].b == Accept(NewBucket(0, 1), n, m, 0, 0)
      && w.repair == UNCONNECTED && w.clock == late
  {
    hide IsRun, Leads, Shaped, RingOf, Copies, Accept, DgramEncode, Encode;
    ws, steps := Publishes(c, m, n);
    var w := ws[|steps|];
    ShapedThroughout(c, ws, steps, |steps|);
    var d := DgramEncode(0, n, Encode(m));
    var sent := w.(sent := map[d := (0, n)]);
    SendLeads(c, w, m, n);
    Extend(c, ws, steps, Send(0, n), sent);
    StillShaped(c, sent);
    var received := sent.(subs := [TAccept(NewTracked(0, 1), n, m, 0, 0)]);
    CopyReceived(c, sent, m, n);
    Extend(c, ws + [sent], steps + [Send(0, n)], Receive(0, d), received);
    StillShaped(c, received);
    var waited := received.(clock := late);
    ElapseLeads(c, received, late);
    Extend(c, ws + [sent] + [received], steps + [Send(0, n)] + [Receive(0, d)], Elapse(late), waited);
    ws, steps := ws + [sent] + [received] + [waited], steps + [Send(0, n)] + [Receive(0, d)] + [Elapse(late)];
    assert waited.subs[0].b == Accept(NewBucket(0, 1), n, m, 0, 0);
  }

  lemma SendLeads(c: Setup, w: World, m: OrderMessage, n: u64)
    requires Shaped(c, w) && w.logs == [Copies(m, n)] && w.sent == map[] && 0 < n
    ensures Leads(c, w, Send(0, n), w.(sent := map[DgramEncode(0, n, Encode(m)) := (0, n)]))
  {
    hide Shaped, DgramEncode, Encode;
    var d := DgramEncode(0, n, Encode(m));
    assert map[][d := (0, n)] == map[d := (0, n)];
  }

  lemma CopyReceived(c: Setup, w: World, m: OrderMessage, n: u64)
    requires Shaped(c, w) && w.subs == [NewTracked(0, 1)] && w.clock == 0 && c.backfill == 0 && Terminated(m.symbol)
    requires DgramEncode(0, n, Encode(m)) in w.sent
    ensures Leads(c, w, Receive(0, DgramEncode(0, n, Encode(m))),
                  w.(subs := [TAccept(NewTracked(0, 1), n, m, 0, 0)]))
  {
    hide Shaped, DgramEncode, DgramDecode, Encode, TAccept, Leads;
    var d, t := DgramEncode(0, n, Encode(m)), NewTracked(0, 1);
    CopyDecodes(m, n);
    ReceiveLeads(c, w, 0, d);
    assert TReceive(t, d, 0, 0) == TAccept(t, n, m, 0, 0);
    assert [t][0 := TAccept(t, n, m, 0, 0)] == [TAccept(t, n, m, 0, 0)];
  }

  lemma CopyDecodes(m: OrderMessage, n: u64)
    requires Terminated(m.symbol)
    ensures DgramDecode(DgramEncode(0, n, Encode(m))) == Some(Dgram(0, n, m))
  {
    hide DgramEncode, DgramDecode, Encode, Decode;
    DgramRead(DgramEncode(0, n, Encode(m)), 0, n, Encode(m));
    RoundTrip(m);
  }

  /** A tick of the only bucket that reaches the server and asks. */
  lemma TickGoesOn(c: Setup, ws: seq<World>, steps: seq<Step>) returns (v: World)
    requires IsRun(c, ws, steps) && |ws| == |steps| + 1 && c.joined == [0]
    requires var w := ws[|steps|];
      && |w.subs| == 1 && Reachable(w.repair, w.clock)
      && Nak(w.subs[0].b, w.repair, w.clock, c.timing, true, true).asked != []
    ensures IsRun(c, ws + [v], steps + [Poll(0, true, true)])
    ensures var w := ws[|steps|];
      var n := Nak(w.subs[0].b, w.repair, w.clock, c.timing, true, true);
      && |v.subs| == 1 && v.subs[0].b == n.bucket && v.repair == n.repair && v.clock == w.clock
      && OwedTo(v, 0) == OwedTo(w, 0) + |n.asked|
  {
    var w := ws[|steps|];
    hide IsRun, Safe, Leads, Shaped, Nak, TNak, OwedTo, EncodeRequest;
    RunSafe(c, ws, steps, |steps|);
    StillShaped(c, w);
    GoodTick(w.subs[0].b, w.repair, w.clock, c.timing);
    PollLeads(c, w, 0);
    var n := Nak(w.subs[0].b, w.repair, w.clock, c.timing, true, true);
    var request := Request(w.subs[0].b.id, n.asked);
    v := w.(subs := w.subs[0 := TNak(w.subs[0], w.repair, w.clock, c.timing, true, true)], repair := n.repair,
            up := w.up + EncodeRequest(request), pending := w.pending + [request]);
    ShapedSubs(c, w);
    Extend(c, ws, steps, Poll(0, true, true), v);
    OneMoreAsked(w, v, request);
    TickedBucket(w.subs[0], w.repair, w.clock, c.timing);
  }

  lemma TickedBucket(t: Tracked, r: Repair, now: nat, timing: Timing)
    ensures TNak(t, r, now, timing, true, true).b == Nak(t.b, r, now, timing, true, true).bucket
  {
  }

  lemma OneMoreAsked(w: World, v: World, request: Request)
    requires v.pending == w.pending + [request] && v.owed == w.owed
    ensures OwedTo(v, request.bucket) == OwedTo(w, request.bucket) + |request.sequences|
  {
    AskedOfAppend(w.pending, request, request.bucket);
  }

  ghost predicate OwesMore(c: Setup, ws: seq<World>, steps: seq<Step>) {
    IsRun(c, ws, steps) && |ws| == |steps| + 1 && OwedTo(ws[|steps|], 0) > MAX_REPAIR_BATCH
  }

  /** Whatever the message, the ring and the timing, as long as holes are asked
      for before they are given up, there is a run in which one bucket is owed
      more than a batch. */
  lemma OwedMoreThanBatch(m: OrderMessage, ringSize: nat, timing: Timing)
    requires m.kind != END && Terminated(m.symbol) && ringSize > 0 && timing.nakDelay < timing.giveup
    ensures exists ws, steps :: OwesMore(OneBucket(ringSize, timing), ws, steps)
  {
    hide IsRun, Accept, Nak, EligibleHoles, Expire, Batch, OwedTo;
    var c, now := OneBucket(ringSize, timing), timing.giveup;
    var b := Accept(NewBucket(0, 1), 514, m, 0, 0);
    var ws, steps := SkippedTo(c, m, 514, now);
    ManyHoles(m, now, timing);
    BatchTakes(Expire(b, now, timing.giveup), now, timing);
    GoodTick(b, UNCONNECTED, now, timing);
    SecondBatch(b, UNCONNECTED, now, timing);
    var first := TickGoesOn(c, ws, steps);
    var us, todo := ws + [first], steps + [Poll(0, true, true)];
    var second := TickGoesOn(c, us, todo);
    assert OwesMore(c, us + [second], todo + [Poll(0, true, true)]);
  }
}
