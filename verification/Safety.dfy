// What every step of the protocol keeps when datagrams and repair answers are
// honest: nothing but what was published is ever parked, passed or written
// off, and the bytes in flight are answers to what was asked.
module Safety {
  import opened Bytes
  import opened Messages
  import opened RepairWire
  import opened Buckets
  import opened Publishers
  import opened Tracking
  import opened Protocol

  // ---- one bucket against its log ------------------------------------------------

  /** The end marker closes a finished log and is nowhere else. */
  ghost predicate LogShape(log: seq<OrderMessage>, finished: bool) {
    && (forall i | 0 <= i < |log| :: Terminated(log[i].symbol) && (log[i].kind == END <==> finished && i == |log| - 1))
    && (finished ==> log != [])
  }

  ghost predicate PassedTruly(r: Release, log: seq<OrderMessage>, s: nat) {
    match r
    case Delivered(m) => 1 <= s <= |log| && m == log[s - 1] && m.kind != END
    case Ended => 1 <= s <= |log| && log[s - 1].kind == END
    case Lost => true
  }

  /** Everything the bucket holds and passed is what was published under the
      same number; write-offs concern noticed holes, and "no longer held" was
      said only of numbers a ringful old. */
  ghost predicate Faithful(t: Tracked, log: seq<OrderMessage>, size: nat) {
    && 1 <= t.r.start
    && (t.r.hi >= t.r.start ==> t.r.hi <= |log|)
    && t.b.next <= t.r.hi + 1
    && (forall s | s in t.b.parked :: t.b.next <= s <= t.r.hi && 1 <= s <= |log| && t.b.parked[s] == log[s - 1])
    && (forall s | s in t.b.gone :: s in t.r.noticedAt)
    && (forall s | s in t.r.writtenOff :: s in t.r.noticedAt && (t.r.writtenOff[s].NoLongerHeld? ==> s + size <= |log|))
    && (forall k | 0 <= k < |t.r.released| :: PassedTruly(t.r.released[k], log, t.r.start + k))
    && (!t.b.synced ==> t.b.parked == map[] && t.b.gone == {} && t.r.released == [])
  }

  lemma FaithfulGrows(t: Tracked, log: seq<OrderMessage>, m: OrderMessage, size: nat)
    requires Faithful(t, log, size)
    ensures Faithful(t, log + [m], size)
  {
    forall k | 0 <= k < |t.r.released| ensures PassedTruly(t.r.released[k], log + [m], t.r.start + k) {
      assert PassedTruly(t.r.released[k], log, t.r.start + k);
    }
  }

  lemma AcceptFaithful(t: Tracked, s: u64, now: nat, backfill: nat, log: seq<OrderMessage>, size: nat)
    requires Faithful(t, log, size) && Covered(t) && 1 <= s <= |log|
    ensures Faithful(TAccept(t, s, log[s - 1], now, backfill), log, size)
  {
    var v, u := Synced(t, s, backfill), TAccept(t, s, log[s - 1], now, backfill);
    assert Faithful(v, log, size);
    hide PassedTruly, NewHoles, Known;
    if !Duplicate(v.b, s) {
      assert u.b == Accept(v.b, s, log[s - 1], now, 0);
      assert u.r.released == v.r.released;
    }
  }

  /** A tick changes nothing Faithful speaks of but adds late holes to what is
      written off. */
  lemma NakEffect(t: Tracked, r: Repair, now: nat, timing: Timing, connects: bool, writes: bool)
    ensures var u, late := TNak(t, r, now, timing, connects, writes), Expired(t.b, now, timing.giveup);
      && u.b.gone == t.b.gone + late && u.b.parked == t.b.parked && u.b.next == t.b.next && u.b.synced == t.b.synced
      && u.r == t.r.(asks := u.r.asks, writtenOff := t.r.writtenOff + map s | s in late :: TimedOut(now))
  {
    hide Batch;
  }

  lemma NakFaithful(t: Tracked, r: Repair, now: nat, timing: Timing, connects: bool, writes: bool,
      log: seq<OrderMessage>, size: nat)
    requires Faithful(t, log, size) && Covered(t) && Orderly(t.b)
    ensures Faithful(TNak(t, r, now, timing, connects, writes), log, size)
  {
    NakEffect(t, r, now, timing, connects, writes);
    hide TNak, PassedTruly;
  }

  /** A frame that answers an earlier request of this bucket, truthfully. */
  ghost predicate HonestAnswer(f: Frame, log: seq<OrderMessage>, size: nat) {
    match f.payload
    case Some(p) => 1 <= f.sequence <= |log| && p == Encode(log[f.sequence - 1])
    case None => f.sequence + size <= |log|
  }

  lemma FrameFaithful(t: Tracked, f: Frame, log: seq<OrderMessage>, size: nat, finished: bool)
    requires Faithful(t, log, size) && Covered(t) && LogShape(log, finished)
    requires HonestAnswer(f, log, size) && f.sequence in t.r.noticedAt
    ensures Faithful(TFrame(t, f), log, size)
  {
    if f.payload.None? {
      GoneFaithful(t, f, log, size);
    } else {
      assert Terminated(log[f.sequence - 1].symbol);
      hide Covered, Faithful, TFrame, LogShape;
      RoundTrip(log[f.sequence - 1]);
      RepairFaithful(t, f, log, size);
    }
  }

  lemma GoneFaithful(t: Tracked, f: Frame, log: seq<OrderMessage>, size: nat)
    requires Faithful(t, log, size) && Covered(t) && f.sequence in t.r.noticedAt
    requires f.payload.None? && f.sequence + size <= |log|
    ensures Faithful(TFrame(t, f), log, size)
  {
    assert t.b.synced;
    hide PassedTruly, Covered;
    var u := TFrame(t, f);
    assert u.b == t.b.(holes := u.b.holes, gone := u.b.gone) && u.b.gone <= t.b.gone + {f.sequence};
    assert u.r == t.r.(writtenOff := u.r.writtenOff);
    assert forall s | s in u.r.writtenOff ::
        s == f.sequence || (s in t.r.writtenOff && u.r.writtenOff[s] == t.r.writtenOff[s]);
  }

  lemma RepairFaithful(t: Tracked, f: Frame, log: seq<OrderMessage>, size: nat)
    requires Faithful(t, log, size) && Covered(t) && f.sequence in t.r.noticedAt
    requires f.payload.Some? && 1 <= f.sequence <= |log| && Decode(f.payload.value) == log[f.sequence - 1]
    ensures Faithful(TFrame(t, f), log, size)
  {
    hide PassedTruly, Decode;
    var u, s := TFrame(t, f), f.sequence;
    assert u.r == t.r && u.b.gone == t.b.gone && u.b.next == t.b.next && u.b.synced == t.b.synced;
    assert t.b.synced && s < t.r.hi;
    assert u.b.parked == t.b.parked || (s >= t.b.next && u.b.parked == t.b.parked[s := log[s - 1]]);
    hide TFrame, Covered;
  }

  lemma ReleaseOneFaithful(t: Tracked, log: seq<OrderMessage>, size: nat)
    requires Faithful(t, log, size) && Covered(t) && ReleaseOne(t.b).Some?
    requires |t.r.released| == t.b.next - t.r.start
    ensures Faithful(TReleaseOne(t), log, size)
  {
    var r := ReleaseOne(t.b).value.1;
    assert PassedTruly(r, log, t.b.next);
  }

  lemma {:induction false} ReleaseFaithful(t: Tracked, log: seq<OrderMessage>, size: nat, timing: Timing, clock: nat)
    requires Faithful(t, log, size) && Sane(t, timing, clock)
    ensures Faithful(TRelease(t), log, size) && Sane(TRelease(t), timing, clock)
    decreases |t.b.parked| + |t.b.gone|
  {
    if ReleaseOne(t.b).None? {
      NoRelease(t);
    } else {
      ReleaseOneFaithful(t, log, size);
      ReleaseOneSane(t, timing, clock);
      ReleaseStep(t);
      ReleaseFaithful(TReleaseOne(t), log, size, timing, clock);
    }
  }

  // ---- what is on the repair connection ------------------------------------------

  ghost predicate NoticedBy(subs: seq<Tracked>, bucket: u16, s: u64) {
    forall j | 0 <= j < |subs| && subs[j].b.id == bucket :: s in subs[j].r.noticedAt
  }

  ghost predicate HonestRequest(subs: seq<Tracked>, logs: seq<seq<OrderMessage>>, r: Request) {
    && r.bucket < |logs| && 0 < |r.sequences| <= MAX_REPAIR_BATCH
    && (forall s | s in r.sequences :: 1 <= s <= |logs[r.bucket]| && NoticedBy(subs, r.bucket, s))
  }

  ghost predicate HonestFrame(subs: seq<Tracked>, logs: seq<seq<OrderMessage>>, f: Frame, size: nat) {
    f.bucket < |logs| && HonestAnswer(f, logs[f.bucket], size) && NoticedBy(subs, f.bucket, f.sequence)
  }

  /** The bytes held and in flight are what the requests and answers encode to;
      once the server stopped writing, they may be a part of it. */
  ghost predicate WireTrue(open: bool, held: seq<byte>, up: seq<byte>, down: seq<byte>, cut: bool,
                           pending: seq<Request>, owed: seq<Frame>)
  {
    && (!open ==> held == [] && up == [] && down == [] && !cut && pending == [] && owed == [])
    && !Complete(held)
    && up == EncodeRequests(pending)
    && held + down <= EncodeFrames(owed)
    && (!cut ==> held + down == EncodeFrames(owed))
  }

  ghost predicate RequestsHonest(subs: seq<Tracked>, logs: seq<seq<OrderMessage>>, pending: seq<Request>) {
    forall k | 0 <= k < |pending| :: HonestRequest(subs, logs, pending[k])
  }

  ghost predicate FramesHonest(subs: seq<Tracked>, logs: seq<seq<OrderMessage>>, owed: seq<Frame>, size: nat) {
    forall k | 0 <= k < |owed| :: HonestFrame(subs, logs, owed[k], size)
  }

  ghost predicate Genuine(d: seq<byte>, i: nat, s: nat, logs: seq<seq<OrderMessage>>) {
    && i < |logs| && 1 <= s <= |logs[i]| && i < 0x1_0000 && s < 0x1_0000_0000_0000_0000
    && d == DgramEncode(i, s, Encode(logs[i][s - 1]))
  }

  ghost predicate SentTrue(sent: map<seq<byte>, (nat, nat)>, logs: seq<seq<OrderMessage>>) {
    forall d | d in sent :: Genuine(d, sent[d].0, sent[d].1, logs)
  }

  ghost predicate PublisherTrue(size: nat, rings: seq<Ring>, logs: seq<seq<OrderMessage>>, finished: bool) {
    && size > 0 && |rings| == |logs|
    && (forall i | 0 <= i < |logs| :: LogShape(logs[i], finished) && rings[i] == RingOf(logs[i], size))
  }

  ghost predicate SubTrue(c: Setup, t: Tracked, logs: seq<seq<OrderMessage>>, clock: nat) {
    t.b.id < |logs| && Sane(t, c.timing, clock) && Faithful(t, logs[t.b.id], c.ringSize)
  }

  ghost predicate SubsTrue(c: Setup, subs: seq<Tracked>, logs: seq<seq<OrderMessage>>, clock: nat) {
    forall j | 0 <= j < |subs| :: SubTrue(c, subs[j], logs, clock)
  }

  /** The invariant of every run. */
  ghost predicate Safe(c: Setup, w: World) {
    && Shaped(c, w)
    && PublisherTrue(c.ringSize, w.rings, w.logs, w.finished)
    && SentTrue(w.sent, w.logs)
    && WireTrue(w.repair.open, w.repair.held, w.up, w.down, w.cut, w.pending, w.owed)
    && RequestsHonest(w.subs, w.logs, w.pending)
    && FramesHonest(w.subs, w.logs, w.owed, c.ringSize)
    && SubsTrue(c, w.subs, w.logs, w.clock)
  }

  // ---- helpers about many buckets ---------------------------------------------------

  /** Notices are never forgotten, and identities never change. */
  ghost predicate SubsGrow(subs: seq<Tracked>, after: seq<Tracked>) {
    && |subs| == |after|
    && (forall j | 0 <= j < |subs| ::
        after[j].b.id == subs[j].b.id && subs[j].r.noticedAt.Keys <= after[j].r.noticedAt.Keys)
  }

  lemma NoticedGrows(subs: seq<Tracked>, after: seq<Tracked>, bucket: u16, s: u64)
    requires SubsGrow(subs, after) && NoticedBy(subs, bucket, s)
    ensures NoticedBy(after, bucket, s)
  {
    forall j | 0 <= j < |after| && after[j].b.id == bucket ensures s in after[j].r.noticedAt {
      assert s in subs[j].r.noticedAt.Keys;
    }
  }

  lemma RequestStaysHonest(subs: seq<Tracked>, after: seq<Tracked>, logs: seq<seq<OrderMessage>>, r: Request)
    requires SubsGrow(subs, after) && HonestRequest(subs, logs, r)
    ensures HonestRequest(after, logs, r)
  {
    forall s | s in r.sequences ensures NoticedBy(after, r.bucket, s) {
      NoticedGrows(subs, after, r.bucket, s);
    }
  }

  lemma TrafficStaysHonest(subs: seq<Tracked>, after: seq<Tracked>, logs: seq<seq<OrderMessage>>,
                           pending: seq<Request>, owed: seq<Frame>, size: nat)
    requires RequestsHonest(subs, logs, pending) && FramesHonest(subs, logs, owed, size) && SubsGrow(subs, after)
    ensures RequestsHonest(after, logs, pending) && FramesHonest(after, logs, owed, size)
  {
    forall k | 0 <= k < |pending| ensures HonestRequest(after, logs, pending[k]) {
      RequestStaysHonest(subs, after, logs, pending[k]);
    }
    forall k | 0 <= k < |owed| ensures HonestFrame(after, logs, owed[k], size) {
      NoticedGrows(subs, after, owed[k].bucket, owed[k].sequence);
    }
  }

  // ---- the publisher's steps ------------------------------------------------------------

  ghost predicate LogsGrow(logs: seq<seq<OrderMessage>>, after: seq<seq<OrderMessage>>) {
    && |logs| == |after|
    && (forall i | 0 <= i < |logs| :: GrownByOne(logs[i], after[i]))
  }

  ghost predicate GrownByOne(log: seq<OrderMessage>, after: seq<OrderMessage>) {
    after == log || (after != [] && after == log + [after[|after| - 1]])
  }

  lemma SubsLogsGrow(c: Setup, subs: seq<Tracked>, logs: seq<seq<OrderMessage>>, after: seq<seq<OrderMessage>>,
      clock: nat)
    requires SubsTrue(c, subs, logs, clock) && LogsGrow(logs, after)
    ensures SubsTrue(c, subs, after, clock)
  {
    forall j | 0 <= j < |subs| ensures SubTrue(c, subs[j], after, clock) {
      var i := subs[j].b.id;
      assert SubTrue(c, subs[j], logs, clock) && GrownByOne(logs[i], after[i]);
      if after[i] != logs[i] {
        FaithfulGrows(subs[j], logs[i], after[i][|after[i]| - 1], c.ringSize);
      }
    }
  }

  lemma TrafficLogsGrow(subs: seq<Tracked>, logs: seq<seq<OrderMessage>>, after: seq<seq<OrderMessage>>,
                        pending: seq<Request>, owed: seq<Frame>, size: nat)
    requires RequestsHonest(subs, logs, pending) && FramesHonest(subs, logs, owed, size) && LogsGrow(logs, after)
    ensures RequestsHonest(subs, after, pending) && FramesHonest(subs, after, owed, size)
  {
    forall k | 0 <= k < |pending| ensures HonestRequest(subs, after, pending[k]) {
      assert HonestRequest(subs, logs, pending[k]) && GrownByOne(logs[pending[k].bucket], after[pending[k].bucket]);
    }
    forall k | 0 <= k < |owed| ensures HonestFrame(subs, after, owed[k], size) {
      assert HonestFrame(subs, logs, owed[k], size) && GrownByOne(logs[owed[k].bucket], after[owed[k].bucket]);
    }
  }

  lemma SentLogsGrow(sent: map<seq<byte>, (nat, nat)>, logs: seq<seq<OrderMessage>>, after: seq<seq<OrderMessage>>)
    requires SentTrue(sent, logs) && LogsGrow(logs, after)
    ensures SentTrue(sent, after)
  {
    forall d | d in sent ensures Genuine(d, sent[d].0, sent[d].1, after) {
      assert Genuine(d, sent[d].0, sent[d].1, logs) && GrownByOne(logs[sent[d].0], after[sent[d].0]);
    }
  }

  lemma LogsGrowSafe(c: Setup, w: World, v: World)
    requires Safe(c, w) && Shaped(c, v) && LogsGrow(w.logs, v.logs)
    requires PublisherTrue(c.ringSize, v.rings, v.logs, v.finished)
    requires v == w.(rings := v.rings, logs := v.logs, finished := v.finished)
    ensures Safe(c, v)
  {
    hide WireTrue, SubsTrue, PublisherTrue, SentTrue, RequestsHonest, FramesHonest, LogsGrow, Shaped;
    SubsLogsGrow(c, w.subs, w.logs, v.logs, w.clock);
    TrafficLogsGrow(w.subs, w.logs, v.logs, w.pending, w.owed, c.ringSize);
    SentLogsGrow(w.sent, w.logs, v.logs);
  }

  lemma LogShapeAppend(log: seq<OrderMessage>, m: OrderMessage, ends: bool)
    requires LogShape(log, false) && Terminated(m.symbol) && (m.kind == END <==> ends)
    ensures LogShape(log + [m], ends)
  {
  }

  lemma RingAppend(log: seq<OrderMessage>, m: OrderMessage, size: nat)
    requires size > 0
    ensures RingOf(log + [m], size) == Stored(RingOf(log, size), Encode(m))
  {
    assert (log + [m])[..|log|] == log;
  }

  lemma StoreTrue(size: nat, rings: seq<Ring>, logs: seq<seq<OrderMessage>>, i: nat, m: OrderMessage)
    requires PublisherTrue(size, rings, logs, false) && i < |logs|
    requires m.kind != END && Terminated(m.symbol)
    ensures PublisherTrue(size, rings[i := Stored(rings[i], Encode(m))], logs[i := logs[i] + [m]], false)
    ensures LogsGrow(logs, logs[i := logs[i] + [m]])
  {
    var ring, log := Stored(rings[i], Encode(m)), logs[i] + [m];
    RingAppend(logs[i], m, size);
    LogShapeAppend(logs[i], m, false);
    assert ring == RingOf(log, size) && log[|log| - 1] == m;
    StoreOne(size, rings, logs, i, ring, log);
  }

  lemma StoreOne(size: nat, rings: seq<Ring>, logs: seq<seq<OrderMessage>>, i: nat, ring: Ring, log: seq<OrderMessage>)
    requires PublisherTrue(size, rings, logs, false) && i < |logs|
    requires ring == RingOf(log, size) && LogShape(log, false) && GrownByOne(logs[i], log)
    ensures PublisherTrue(size, rings[i := ring], logs[i := log], false) && LogsGrow(logs, logs[i := log])
  {
    hide RingOf, LogShape;
  }

  lemma PublishShaped(c: Setup, w: World, m: OrderMessage)
    requires Shaped(c, w) && Enabled(c, w, Publish(m))
    ensures BucketOf(m.symbol, c.bucketCount) < |w.logs| && Shaped(c, After(c, w, Publish(m)))
  {
    hide Encode, BucketOf;
  }

  lemma PublishSafe(c: Setup, w: World, m: OrderMessage)
    requires Safe(c, w) && Enabled(c, w, Publish(m))
    ensures Safe(c, After(c, w, Publish(m)))
  {
    hide BucketOf, Encode, Stored, WireTrue, SubsTrue, PublisherTrue, SentTrue, RequestsHonest, FramesHonest, LogsGrow;
    PublishShaped(c, w, m);
    hide Shaped;
    StoreTrue(c.ringSize, w.rings, w.logs, BucketOf(m.symbol, c.bucketCount), m);
    LogsGrowSafe(c, w, After(c, w, Publish(m)));
  }

  /** One log and its ring, closed by the end marker. */
  lemma EndStored(log: seq<OrderMessage>, ring: Ring, size: nat)
    requires size > 0 && LogShape(log, false) && ring == RingOf(log, size)
    ensures LogShape(log + [END_MESSAGE], true) && GrownByOne(log, log + [END_MESSAGE])
    ensures Stored(ring, Encode(END_MESSAGE)) == RingOf(log + [END_MESSAGE], size)
  {
    RingAppend(log, END_MESSAGE, size);
    LogShapeAppend(log, END_MESSAGE, true);
  }

  lemma FinishSafe(c: Setup, w: World)
    requires Safe(c, w) && Enabled(c, w, Finish)
    ensures Safe(c, After(c, w, Finish))
  {
    hide WireTrue, SubsTrue, SentTrue, RequestsHonest, FramesHonest, RingOf, LogShape, Encode, Stored;
    var v := After(c, w, Finish);
    forall i | 0 <= i < |v.logs|
      ensures LogShape(v.logs[i], v.finished) && v.rings[i] == RingOf(v.logs[i], c.ringSize)
          && GrownByOne(w.logs[i], v.logs[i])
    {
      EndStored(w.logs[i], w.rings[i], c.ringSize);
    }
    hide GrownByOne;
    LogsGrowSafe(c, w, v);
  }

  // ---- the network's steps ------------------------------------------------------------------

  lemma GenuineDatagram(w: World, i: u16, s: u64)
    requires i < |w.logs| && 1 <= s <= |w.logs[i]|
    ensures Genuine(DatagramFor(w, i, s), i, s, w.logs)
  {
  }

  lemma SentMore(sent: map<seq<byte>, (nat, nat)>, d: seq<byte>, i: nat, s: nat, logs: seq<seq<OrderMessage>>)
    requires SentTrue(sent, logs) && Genuine(d, i, s, logs)
    ensures SentTrue(sent[d := (i, s)], logs)
  {
    hide Genuine;
  }

  lemma SendSafe(c: Setup, w: World, i: nat, s: nat)
    requires Safe(c, w) && Enabled(c, w, Send(i, s))
    ensures Safe(c, After(c, w, Send(i, s)))
  {
    var d, v := DatagramFor(w, i, s), After(c, w, Send(i, s));
    assert v == w.(sent := w.sent[d := (i, s)]);
    hide After, Enabled, WireTrue, SubsTrue, PublisherTrue, RequestsHonest, FramesHonest, Genuine, DatagramFor,
        Shapes, ValidSetup, SentTrue;
    GenuineDatagram(w, i, s);
    SentMore(w.sent, d, i, s, w.logs);
  }

  lemma SubAges(c: Setup, t: Tracked, logs: seq<seq<OrderMessage>>, clock: nat, now: nat)
    requires SubTrue(c, t, logs, clock) && clock <= now
    ensures SubTrue(c, t, logs, now)
  {
  }

  lemma ElapseSafe(c: Setup, w: World, now: nat)
    requires Safe(c, w) && Enabled(c, w, Elapse(now))
    ensures Safe(c, After(c, w, Elapse(now)))
  {
    forall j | 0 <= j < |w.subs| ensures SubTrue(c, w.subs[j], w.logs, now) {
      SubAges(c, w.subs[j], w.logs, w.clock, now);
    }
    hide WireTrue, PublisherTrue, SentTrue, RequestsHonest, FramesHonest, SubTrue, Shaped;
  }

  // ---- the subscriber's steps on one bucket ---------------------------------------------------

  lemma OneSubTrue(c: Setup, subs: seq<Tracked>, logs: seq<seq<OrderMessage>>, clock: nat, j: nat, t: Tracked)
    requires SubsTrue(c, subs, logs, clock) && j < |subs| && SubTrue(c, t, logs, clock)
    ensures SubsTrue(c, subs[j := t], logs, clock)
  {
    hide SubTrue;
  }

  lemma OneSubShaped(c: Setup, rings: seq<Ring>, logs: seq<seq<OrderMessage>>, subs: seq<Tracked>, j: nat, t: Tracked)
    requires Shapes(c, rings, logs, subs) && j < |subs| && t.b.id == subs[j].b.id
    requires subs[j].r.noticedAt.Keys <= t.r.noticedAt.Keys
    ensures Shapes(c, rings, logs, subs[j := t]) && SubsGrow(subs, subs[j := t])
  {
  }

  /** One bucket changed, keeping what it must; the rest of the world did not. */
  lemma OneSubSafe(c: Setup, w: World, j: nat, t: Tracked)
    requires Safe(c, w) && j < |w.subs|
    requires t.b.id == w.subs[j].b.id && w.subs[j].r.noticedAt.Keys <= t.r.noticedAt.Keys
    requires SubTrue(c, t, w.logs, w.clock)
    ensures Safe(c, w.(subs := w.subs[j := t])) && SubsGrow(w.subs, w.subs[j := t])
  {
    hide WireTrue, SubsTrue, PublisherTrue, SentTrue, RequestsHonest, FramesHonest, SubsGrow, SubTrue, Shapes;
    OneSubTrue(c, w.subs, w.logs, w.clock, j, t);
    OneSubShaped(c, w.rings, w.logs, w.subs, j, t);
    TrafficStaysHonest(w.subs, w.subs[j := t], w.logs, w.pending, w.owed, c.ringSize);
  }

  lemma DatagramTrue(d: seq<byte>, i: nat, s: nat, logs: seq<seq<OrderMessage>>)
    requires Genuine(d, i, s, logs) && Terminated(logs[i][s - 1].symbol)
    ensures DgramDecode(d) == Some(Dgram(i, s, logs[i][s - 1]))
  {
    DgramRead(d, i, s, Encode(logs[i][s - 1]));
    RoundTrip(logs[i][s - 1]);
  }

  lemma AcceptTrue(c: Setup, t: Tracked, s: u64, logs: seq<seq<OrderMessage>>, clock: nat)
    requires SubTrue(c, t, logs, clock) && 1 <= s <= |logs[t.b.id]|
    ensures SubTrue(c, TAccept(t, s, logs[t.b.id][s - 1], clock, c.backfill), logs, clock)
    ensures t.r.noticedAt.Keys <= TAccept(t, s, logs[t.b.id][s - 1], clock, c.backfill).r.noticedAt.Keys
  {
    AcceptSane(t, s, logs[t.b.id][s - 1], clock, c.backfill, c.timing);
    AcceptFaithful(t, s, clock, c.backfill, logs[t.b.id], c.ringSize);
    hide Sane, Faithful;
  }

  lemma ReceiveTrue(c: Setup, t: Tracked, d: seq<byte>, i: nat, s: nat, logs: seq<seq<OrderMessage>>, clock: nat)
    requires SubTrue(c, t, logs, clock) && Genuine(d, i, s, logs) && Terminated(logs[i][s - 1].symbol)
    ensures SubTrue(c, TReceive(t, d, clock, c.backfill), logs, clock)
    ensures t.r.noticedAt.Keys <= TReceive(t, d, clock, c.backfill).r.noticedAt.Keys
    ensures TReceive(t, d, clock, c.backfill).b.id == t.b.id
  {
    DatagramTrue(d, i, s, logs);
    GenuineInRange(d, i, s, logs);
    var m := logs[i][s - 1];
    assert TReceive(t, d, clock, c.backfill) == if i != t.b.id then t else TAccept(t, s, m, clock, c.backfill);
    AcceptKeepsId(t, s, m, clock, c.backfill);
    hide SubTrue, TReceive, TAccept, DgramDecode, Genuine;
    if i == t.b.id {
      AcceptTrue(c, t, s, logs, clock);
    }
  }

  lemma AcceptKeepsId(t: Tracked, s: u64, m: OrderMessage, clock: nat, backfill: nat)
    ensures TAccept(t, s, m, clock, backfill).b.id == t.b.id
  {
  }

  lemma PublishedTerminated(size: nat, rings: seq<Ring>, logs: seq<seq<OrderMessage>>, finished: bool, i: nat, k: nat)
    requires PublisherTrue(size, rings, logs, finished) && i < |logs| && k < |logs[i]|
    ensures Terminated(logs[i][k].symbol)
  {
    assert LogShape(logs[i], finished);
    hide RingOf;
  }

  lemma ReceiveSafe(c: Setup, w: World, j: nat, d: seq<byte>)
    requires Safe(c, w) && Enabled(c, w, Receive(j, d))
    ensures Safe(c, After(c, w, Receive(j, d)))
  {
    hide SubTrue, Genuine, PublisherTrue, WireTrue, RequestsHonest, FramesHonest, TReceive, Terminated;
    var t := w.subs[j];
    var (i, s) := w.sent[d];
    assert Genuine(d, i, s, w.logs) && SubTrue(c, t, w.logs, w.clock);
    GenuineInRange(d, i, s, w.logs);
    PublishedTerminated(c.ringSize, w.rings, w.logs, w.finished, i, s - 1);
    ReceiveTrue(c, t, d, i, s, w.logs, w.clock);
    OneSubSafe(c, w, j, TReceive(t, d, w.clock, c.backfill));
  }

  lemma GenuineInRange(d: seq<byte>, i: nat, s: nat, logs: seq<seq<OrderMessage>>)
    requires Genuine(d, i, s, logs)
    ensures i < |logs| && 1 <= s <= |logs[i]|
  {
  }

  lemma ReleaseTrue(c: Setup, t: Tracked, logs: seq<seq<OrderMessage>>, clock: nat)
    requires SubTrue(c, t, logs, clock)
    ensures SubTrue(c, TRelease(t), logs, clock) && TRelease(t).b.id == t.b.id
    ensures TRelease(t).r.noticedAt == t.r.noticedAt
  {
    ReleaseFaithful(t, logs[t.b.id], c.ringSize, c.timing, clock);
    ReleaseKeepsId(t.b);
    hide Sane, Faithful;
  }

  lemma DeliverSafe(c: Setup, w: World, j: nat)
    requires Safe(c, w) && Enabled(c, w, Deliver(j))
    ensures Safe(c, After(c, w, Deliver(j)))
  {
    hide SubTrue, PublisherTrue, SentTrue, WireTrue, RequestsHonest, FramesHonest, TRelease;
    var t := w.subs[j];
    assert SubTrue(c, t, w.logs, w.clock);
    ReleaseTrue(c, t, w.logs, w.clock);
    OneSubSafe(c, w, j, TRelease(t));
  }

  lemma {:induction false} ReleaseKeepsId(b: Bucket)
    ensures ReleaseAll(b).0.id == b.id
    decreases |b.parked| + |b.gone|
  {
    if ReleaseOne(b).Some? {
      ReleaseShrinks(b);
      ReleaseKeepsId(ReleaseOne(b).value.0);
    }
  }

  // ---- the repair connection -------------------------------------------------------------------

  /** The repair connection and its traffic changed, truthfully. */
  lemma TrafficSafe(c: Setup, w: World, v: World)
    requires Safe(c, w)
    requires v == w.(repair := v.repair, up := v.up, down := v.down, cut := v.cut, pending := v.pending, owed := v.owed)
    requires WireTrue(v.repair.open, v.repair.held, v.up, v.down, v.cut, v.pending, v.owed)
    requires RequestsHonest(v.subs, v.logs, v.pending) && FramesHonest(v.subs, v.logs, v.owed, c.ringSize)
    ensures Safe(c, v)
  {
    hide WireTrue, SubsTrue, PublisherTrue, SentTrue, RequestsHonest, FramesHonest, Shapes;
  }

  lemma HangupSafe(c: Setup, w: World, blockedUntil: nat)
    requires Safe(c, w)
    ensures Safe(c, Hangup(w).(repair := Repair(false, [], blockedUntil)))
  {
    hide Safe, HonestRequest, HonestFrame;
    TrafficSafe(c, w, Hangup(w).(repair := Repair(false, [], blockedUntil)));
  }

  lemma {:induction false} RequestsAppend(rs: seq<Request>, r: Request)
    ensures EncodeRequests(rs + [r]) == EncodeRequests(rs) + EncodeRequest(r)
    decreases |rs|
  {
    if rs == [] {
      assert EncodeRequests([r][1..]) == [];
    } else {
      assert (rs + [r])[1..] == rs[1..] + [r];
      RequestsAppend(rs[1..], r);
      Regroup(EncodeRequest(rs[0]), EncodeRequests(rs[1..]), EncodeRequest(r));
    }
  }

  /** What a bucket asks for is published and noticed. */
  lemma AskHonest(c: Setup, w: World, j: nat, connects: bool, writes: bool)
    requires Safe(c, w) && j < |w.subs|
    requires Nak(w.subs[j].b, w.repair, w.clock, c.timing, connects, writes).asked != []
    ensures var t := w.subs[j];
      HonestRequest(w.subs, w.logs, Request(t.b.id, Nak(t.b, w.repair, w.clock, c.timing, connects, writes).asked))
  {
    var t := w.subs[j];
    var e := Expire(t.b, w.clock, c.timing.giveup);
    var batch := Batch(e, w.clock, c.timing);
    assert SubTrue(c, t, w.logs, w.clock);
    BatchShape(e, w.clock, c.timing);
    forall s | s in batch ensures 1 <= s <= |w.logs[t.b.id]| && NoticedBy(w.subs, t.b.id, s) {
      assert Wanted(e.holes, s, w.clock, c.timing) && s in t.b.holes && s in t.r.noticedAt;
      forall k | 0 <= k < |w.subs| && w.subs[k].b.id == t.b.id ensures k == j {
        assert c.joined[k] == c.joined[j];
      }
    }
  }

  lemma NakTrue(c: Setup, t: Tracked, r: Repair, logs: seq<seq<OrderMessage>>, clock: nat, connects: bool, writes: bool)
    requires SubTrue(c, t, logs, clock)
    ensures SubTrue(c, TNak(t, r, clock, c.timing, connects, writes), logs, clock)
    ensures TNak(t, r, clock, c.timing, connects, writes).r.noticedAt == t.r.noticedAt
    ensures TNak(t, r, clock, c.timing, connects, writes).b.id == t.b.id
  {
    NakSane(t, r, clock, c.timing, connects, writes);
    NakFaithful(t, r, clock, c.timing, connects, writes, logs[t.b.id], c.ringSize);
    hide Sane, Faithful;
  }

  /** How a tick may leave the repair connection: up with the same bytes held,
      and only then something may have been asked; or down with none held. */
  ghost predicate LeavesConnection(n: NakResult, r: Repair) {
    && (n.repair.open ==> n.repair.held == r.held)
    && (!n.repair.open ==> n.asked == [] && (n.repair.held == [] || n.repair.held == r.held))
    && (n.repair.open && n.asked == [] ==> r.open)
    && (r.open && !n.repair.open ==> n.repair.held == [])
  }

  lemma NakConnection(b: Bucket, r: Repair, now: nat, timing: Timing, connects: bool, writes: bool)
    ensures LeavesConnection(Nak(b, r, now, timing, connects, writes), r)
  {
  }

  /** What a tick does to its bucket and may ask for. */
  lemma PolledBucket(c: Setup, w: World, j: nat, connects: bool, writes: bool)
    requires Safe(c, w) && j < |w.subs|
    ensures var t := w.subs[j];
      var u := TNak(t, w.repair, w.clock, c.timing, connects, writes);
      var n := Nak(t.b, w.repair, w.clock, c.timing, connects, writes);
      && Safe(c, w.(subs := w.subs[j := u])) && SubsGrow(w.subs, w.subs[j := u])
      && (n.asked != [] ==> HonestRequest(w.subs, w.logs, Request(t.b.id, n.asked)))
  {
    var t := w.subs[j];
    assert SubTrue(c, t, w.logs, w.clock);
    if Nak(t.b, w.repair, w.clock, c.timing, connects, writes).asked != [] {
      AskHonest(c, w, j, connects, writes);
    }
    hide Nak, TNak, SubTrue, Safe, HonestRequest;
    NakTrue(c, t, w.repair, w.logs, w.clock, connects, writes);
    OneSubSafe(c, w, j, TNak(t, w.repair, w.clock, c.timing, connects, writes));
  }

  lemma PollStarts(c: Setup, w: World, j: nat, connects: bool, writes: bool)
    requires Safe(c, w) && Enabled(c, w, Poll(j, connects, writes))
    ensures j < |w.subs| && WireTrue(w.repair.open, w.repair.held, w.up, w.down, w.cut, w.pending, w.owed)
    ensures After(c, w, Poll(j, connects, writes)) == AfterPoll(c, w, j, connects, writes)
  {
    hide AfterPoll, Shaped, PublisherTrue, SentTrue, WireTrue, RequestsHonest, FramesHonest, SubsTrue;
  }

  lemma PollSafe(c: Setup, w: World, j: nat, connects: bool, writes: bool)
    requires Safe(c, w) && Enabled(c, w, Poll(j, connects, writes))
    ensures Safe(c, After(c, w, Poll(j, connects, writes)))
  {
    hide Nak, TNak, PollEffect, AfterPoll, HonestRequest, SubsGrow, LeavesConnection, Safe, WireTrue, After, Enabled,
        Shaped;
    PollStarts(c, w, j, connects, writes);
    var t := w.subs[j];
    var n, u := Nak(t.b, w.repair, w.clock, c.timing, connects, writes),
        TNak(t, w.repair, w.clock, c.timing, connects, writes);
    PolledBucket(c, w, j, connects, writes);
    NakConnection(t.b, w.repair, w.clock, c.timing, connects, writes);
    PollTraffic(c, w, w.subs[j := u], n, Request(t.b.id, n.asked));
    PollIs(c, w, j, connects, writes);
  }

  lemma PollIs(c: Setup, w: World, j: nat, connects: bool, writes: bool)
    requires j < |w.subs|
    ensures var t := w.subs[j];
      var n := Nak(t.b, w.repair, w.clock, c.timing, connects, writes);
      AfterPoll(c, w, j, connects, writes)
      == PollEffect(w, w.subs[j := TNak(t, w.repair, w.clock, c.timing, connects, writes)], n, Request(t.b.id, n.asked))
  {
    hide Nak, TNak, EncodeRequest;
  }

  /** The effect of a tick on the connection alone. */
  function PollEffect(w: World, subs: seq<Tracked>, n: NakResult, request: Request): World {
    var v := w.(subs := subs);
    if !n.repair.open then Hangup(v).(repair := n.repair)
    else if n.asked == [] then v.(repair := n.repair)
    else v.(repair := n.repair, up := w.up + EncodeRequest(request), pending := w.pending + [request])
  }

  lemma PollTraffic(c: Setup, w: World, subs: seq<Tracked>, n: NakResult, request: Request)
    requires Safe(c, w.(subs := subs)) && SubsGrow(w.subs, subs)
    requires WireTrue(w.repair.open, w.repair.held, w.up, w.down, w.cut, w.pending, w.owed)
    requires LeavesConnection(n, w.repair)
    requires n.asked != [] ==> HonestRequest(w.subs, w.logs, request)
    ensures Safe(c, PollEffect(w, subs, n, request))
  {
    var v := w.(subs := subs);
    if !n.repair.open {
      HangupSafe(c, v, n.repair.blockedUntil);
    } else if n.asked == [] {
      TrafficSafe(c, v, v.(repair := n.repair));
    } else {
      RequestStaysHonest(w.subs, subs, w.logs, request);
      RequestsAppend(w.pending, request);
      AskedSafe(c, v, n.repair, request);
    }
  }

  lemma AskedSafe(c: Setup, w: World, repair: Repair, request: Request)
    requires Safe(c, w) && repair.open && repair.held == w.repair.held
    requires HonestRequest(w.subs, w.logs, request)
    requires EncodeRequests(w.pending + [request]) == EncodeRequests(w.pending) + EncodeRequest(request)
    ensures Safe(c, w.(repair := repair, up := w.up + EncodeRequest(request), pending := w.pending + [request]))
  {
    hide EncodeRequest, EncodeRequests, EncodeFrames, HonestRequest, HonestFrame, SubsTrue, PublisherTrue, SentTrue,
        Shapes;
    TrafficSafe(c, w, w.(repair := repair, up := w.up + EncodeRequest(request), pending := w.pending + [request]));
  }

  lemma {:induction false} FramesConcat(p: seq<Frame>, q: seq<Frame>)
    ensures EncodeFrames(p + q) == EncodeFrames(p) + EncodeFrames(q)
    decreases |p|
  {
    if p == [] {
      assert p + q == q;
    } else {
      assert (p + q)[1..] == p[1..] + q;
      FramesConcat(p[1..], q);
      Regroup(EncodeFrame(p[0]), EncodeFrames(p[1..]), EncodeFrames(q));
    }
  }

  /** The server reads the oldest request off the wire. */
  lemma ServeReads(c: Setup, w: World)
    requires Safe(c, w) && Enabled(c, w, Serve)
    ensures w.pending != [] && HonestRequest(w.subs, w.logs, w.pending[0])
    ensures ReadRequest(w.up, c.bucketCount) == Some((w.pending[0], EncodeRequests(w.pending[1..])))
  {
    if w.pending != [] {
      assert HonestRequest(w.subs, w.logs, w.pending[0]);
      RequestRoundTrip(w.pending[0], EncodeRequests(w.pending[1..]), c.bucketCount);
    }
  }

  /** Each answer to an honest request is honest. */
  lemma AnswersHonest(size: nat, rings: seq<Ring>, logs: seq<seq<OrderMessage>>, finished: bool, subs: seq<Tracked>,
      r: Request)
    requires PublisherTrue(size, rings, logs, finished) && HonestRequest(subs, logs, r)
    ensures r.bucket < |rings| && |rings[r.bucket].slots| == size > 0
    ensures FramesHonest(subs, logs, Answers(rings[r.bucket], r.bucket, r.sequences), size)
  {
    assert rings[r.bucket] == RingOf(logs[r.bucket], size);
    hide PublisherTrue, RingOf, Answer;
    var fs := Answers(rings[r.bucket], r.bucket, r.sequences);
    forall k | 0 <= k < |fs| ensures HonestFrame(subs, logs, fs[k], size) {
      assert r.sequences[k] in r.sequences;
      AnswerHonest(size, logs, subs, r.bucket, r.sequences[k]);
    }
  }

  lemma AnswerHonest(size: nat, logs: seq<seq<OrderMessage>>, subs: seq<Tracked>, bucket: u16, s: u64)
    requires size > 0 && bucket < |logs| && 1 <= s <= |logs[bucket]| && NoticedBy(subs, bucket, s)
    ensures HonestFrame(subs, logs, Answer(RingOf(logs[bucket], size), bucket, s), size)
  {
    hide RingOf, Answer, Encode, NoticedBy;
    RingAnswers(logs[bucket], size, bucket, s);
  }

  lemma WireServed(w: World, fs: seq<Frame>)
    requires WireTrue(w.repair.open, w.repair.held, w.up, w.down, w.cut, w.pending, w.owed)
    requires !w.cut && w.repair.open
    ensures WireTrue(w.repair.open, w.repair.held, EncodeRequests(w.pending), w.down + EncodeFrames(fs), false,
        w.pending, w.owed + fs)
    ensures w.pending != [] ==> WireTrue(w.repair.open, w.repair.held, EncodeRequests(w.pending[1..]),
                                         w.down + EncodeFrames(fs), false, w.pending[1..], w.owed + fs)
  {
    FramesConcat(w.owed, fs);
    Regroup(w.repair.held, w.down, EncodeFrames(fs));
  }

  lemma HonestJoin(subs: seq<Tracked>, logs: seq<seq<OrderMessage>>, owed: seq<Frame>, fs: seq<Frame>, size: nat)
    requires FramesHonest(subs, logs, owed, size) && FramesHonest(subs, logs, fs, size)
    ensures FramesHonest(subs, logs, owed + fs, size)
  {
    hide HonestFrame;
  }

  lemma HonestTail(subs: seq<Tracked>, logs: seq<seq<OrderMessage>>, pending: seq<Request>)
    requires RequestsHonest(subs, logs, pending) && pending != []
    ensures RequestsHonest(subs, logs, pending[1..])
  {
    hide HonestRequest;
  }

  lemma ServeEffect(c: Setup, w: World, request: Request, rest: seq<byte>)
    requires Shaped(c, w) && Enabled(c, w, Serve) && w.pending != []
    requires ReadRequest(w.up, c.bucketCount) == Some((request, rest))
    requires request.bucket < |w.rings| && |w.rings[request.bucket].slots| > 0
    ensures var fs := Answers(w.rings[request.bucket], request.bucket, request.sequences);
      After(c, w, Serve)
          == w.(up := rest, pending := w.pending[1..], down := w.down + EncodeFrames(fs), owed := w.owed + fs)
  {
    hide Shaped, ReadRequest, Answers, EncodeFrames;
  }

  lemma ServeSafe(c: Setup, w: World)
    requires Safe(c, w) && Enabled(c, w, Serve)
    ensures Safe(c, After(c, w, Serve))
  {
    hide WireTrue, SubsTrue, PublisherTrue, SentTrue, RequestsHonest, FramesHonest, Shapes, ValidSetup;
    hide EncodeFrames, EncodeRequests, Answers, ReadRequest;
    ServeReads(c, w);
    var request := w.pending[0];
    AnswersHonest(c.ringSize, w.rings, w.logs, w.finished, w.subs, request);
    var fs := Answers(w.rings[request.bucket], request.bucket, request.sequences);
    ServeEffect(c, w, request, EncodeRequests(w.pending[1..]));
    assert w.repair.open && !w.cut && !After(c, w, Serve).cut;
    hide After, Enabled;
    WireServed(w, fs);
    HonestJoin(w.subs, w.logs, w.owed, fs, c.ringSize);
    HonestTail(w.subs, w.logs, w.pending);
    TrafficSafe(c, w, After(c, w, Serve));
  }

  lemma CutSafe(c: Setup, w: World, kept: nat)
    requires Safe(c, w) && Enabled(c, w, Cut(kept))
    ensures Safe(c, After(c, w, Cut(kept)))
  {
    hide SubsTrue, PublisherTrue, SentTrue, RequestsHonest, FramesHonest, Shapes, EncodeFrames, EncodeRequests;
    var v := After(c, w, Cut(kept));
    PrefixOfJoin(w.repair.held, w.down, kept, EncodeFrames(w.owed));
    TrafficSafe(c, w, v);
  }

  lemma PrefixOfJoin(held: seq<byte>, down: seq<byte>, kept: nat, all: seq<byte>)
    requires kept <= |down| && held + down <= all
    ensures held + down[..kept] <= all
  {
  }

  // ---- reading the repair connection ---------------------------------------------------------------

  /** A part of honest frames parses into the first of them, never into a bad
      length; what is left over continues with the rest of them. */
  lemma {:induction false} ParsePart(bytes: seq<byte>, rest: seq<byte>, fs: seq<Frame>)
    requires bytes + rest == EncodeFrames(fs)
    ensures var p := ParseFrames(bytes);
      !p.bad && p.frames <= fs && p.rest + rest == EncodeFrames(fs[|p.frames|..])
    decreases |bytes|
  {
    if Complete(bytes) {
      PartHead(bytes, rest, fs);
      var after := bytes[12 + GetU16(bytes, 10)..];
      ParsePart(after, rest, fs[1..]);
      var p, q := ParseFrames(bytes), ParseFrames(after);
      assert p.frames == [fs[0]] + q.frames && p.rest == q.rest && p.bad == q.bad;
      hide ParseFrames, Complete, GetU16, EncodeFrames;
      assert fs == [fs[0]] + fs[1..];
      assert fs[|p.frames|..] == fs[1..][|q.frames|..];
    }
  }

  /** A complete part of honest frames starts with the first of them. */
  lemma PartHead(bytes: seq<byte>, rest: seq<byte>, fs: seq<Frame>)
    requires Complete(bytes) && bytes + rest == EncodeFrames(fs)
    ensures fs != [] && LengthOk(bytes) && HeadFrame(bytes) == fs[0]
    ensures bytes[12 + GetU16(bytes, 10)..] + rest == EncodeFrames(fs[1..])
  {
    FramesSplit(fs);
    assert fs != [];
    hide Complete, LengthOk, HeadFrame, GetU16, EncodeFrames, EncodeFrame;
    HeadOfEncoded(fs[0], EncodeFrames(fs[1..]));
    HeadOfPart(bytes, rest, fs[0]);
    PartTail(bytes, rest, 12 + GetU16(bytes, 10));
  }

  lemma FramesSplit(fs: seq<Frame>)
    ensures fs != [] ==> EncodeFrames(fs) == EncodeFrame(fs[0]) + EncodeFrames(fs[1..])
    ensures fs == [] ==> EncodeFrames(fs) == []
  {
    hide EncodeFrame;
  }

  lemma PartTail(bytes: seq<byte>, rest: seq<byte>, n: nat)
    requires n <= |bytes|
    ensures (bytes + rest)[n..] == bytes[n..] + rest
  {
  }

  lemma HeadOfPart(bytes: seq<byte>, rest: seq<byte>, f: Frame)
    requires Complete(bytes) && Complete(bytes + rest) && LengthOk(bytes + rest) && HeadFrame(bytes + rest) == f
    ensures LengthOk(bytes) && HeadFrame(bytes) == f && GetU16(bytes, 10) == GetU16(bytes + rest, 10)
    ensures 12 + GetU16(bytes, 10) <= |bytes|
  {
    assert (bytes + rest)[10..12] == bytes[10..12];
    assert (bytes + rest)[0..2] == bytes[0..2];
    assert (bytes + rest)[2..10] == bytes[2..10];
    assert |bytes| >= 41 ==> (bytes + rest)[12..41] == bytes[12..41];
  }

  lemma FrameTrue(c: Setup, t: Tracked, f: Frame, logs: seq<seq<OrderMessage>>, clock: nat, finished: bool)
    requires SubTrue(c, t, logs, clock) && LogShape(logs[t.b.id], finished)
    requires HonestAnswer(f, logs[t.b.id], c.ringSize) && f.sequence in t.r.noticedAt
    ensures SubTrue(c, TFrame(t, f), logs, clock)
    ensures TFrame(t, f).r.noticedAt == t.r.noticedAt && TFrame(t, f).b.id == t.b.id
  {
    FrameKeepsIdentity(t, f);
    assert Covered(t);
    hide Sane, Faithful, Covered, TFrame, HonestAnswer, LogShape;
    FrameSane(t, f, c.timing, clock);
    FrameFaithful(t, f, logs[t.b.id], c.ringSize, finished);
  }

  lemma FrameKeepsIdentity(t: Tracked, f: Frame)
    ensures TFrame(t, f).r.noticedAt == t.r.noticedAt && TFrame(t, f).b.id == t.b.id
  {
  }

  /** Applying one honest frame keeps every bucket sane and faithful. */
  lemma ApplyOneSafe(c: Setup, w: World, f: Frame)
    requires Safe(c, w) && HonestFrame(w.subs, w.logs, f, c.ringSize)
    ensures Safe(c, w.(subs := ApplyOne(w.subs, f))) && SubsGrow(w.subs, ApplyOne(w.subs, f))
  {
    var i := FindTracked(w.subs, f.bucket);
    if i.Some? {
      var t := w.subs[i.value];
      assert f.sequence in t.r.noticedAt && LogShape(w.logs[t.b.id], w.finished) && SubTrue(c, t, w.logs, w.clock);
      FrameTrue(c, t, f, w.logs, w.clock, w.finished);
      hide Safe, SubTrue, SubsGrow, TFrame, HonestFrame;
      OneSubSafe(c, w, i.value, TFrame(t, f));
    }
  }

  lemma {:induction false} ApplyAllSafe(c: Setup, w: World, fs: seq<Frame>)
    requires Safe(c, w) && FramesHonest(w.subs, w.logs, fs, c.ringSize)
    ensures Safe(c, w.(subs := ApplyAll(w.subs, fs)))
    decreases |fs|
  {
    if fs == [] {
      assert w.(subs := ApplyAll(w.subs, fs)) == w;
    } else {
      assert HonestFrame(w.subs, w.logs, fs[0], c.ringSize);
      ApplyOneSafe(c, w, fs[0]);
      var v := w.(subs := ApplyOne(w.subs, fs[0]));
      assert FramesHonest(w.subs, w.logs, fs[1..], c.ringSize) by {
        forall k | 0 <= k < |fs[1..]| ensures HonestFrame(w.subs, w.logs, fs[1..][k], c.ringSize) {
          assert fs[1..][k] == fs[k + 1];
        }
      }
      TrafficStaysHonest(w.subs, v.subs, w.logs, [], fs[1..], c.ringSize);
      ApplyAllSafe(c, v, fs[1..]);
    }
  }

  /** What is still to come on the wire continues what has been read. */
  lemma StillToCome(held: seq<byte>, down: seq<byte>, count: nat, all: seq<byte>) returns (missing: seq<byte>)
    requires count <= |down| && held + down <= all
    ensures held + down[..count] + (down[count..] + missing) == all
    ensures held + down == all ==> missing == []
  {
    missing := all[|held + down|..];
    assert all == held + down + missing;
    assert down == down[..count] + down[count..];
  }

  /** Reading any part of an honest stream finds the frames owed first, no bad
      length, and leaves a stream of the frames still owed. */
  lemma ReadParses(held: seq<byte>, down: seq<byte>, count: nat, owed: seq<Frame>)
    requires count <= |down| && held + down <= EncodeFrames(owed)
    ensures var p := ParseFrames(held + down[..count]);
      && !p.bad && p.frames <= owed
      && p.rest + down[count..] <= EncodeFrames(owed[|p.frames|..])
      && (held + down == EncodeFrames(owed) ==> p.rest + down[count..] == EncodeFrames(owed[|p.frames|..]))
  {
    var missing := StillToCome(held, down, count, EncodeFrames(owed));
    var p := ParseFrames(held + down[..count]);
    ParsePart(held + down[..count], down[count..] + missing, owed);
    Regroup(p.rest, down[count..], missing);
    assert missing == [] ==> p.rest + down[count..] + missing == p.rest + down[count..];
  }

  lemma ReadSafe(c: Setup, w: World, count: nat)
    requires Safe(c, w) && Enabled(c, w, Read(count))
    ensures Safe(c, After(c, w, Read(count)))
  {
    ReadParses(w.repair.held, w.down, count, w.owed);
    var p := ParseFrames(w.repair.held + w.down[..count]);
    hide ParseFrames, ApplyAll, SubsTrue, PublisherTrue, SentTrue, RequestsHonest, FramesHonest, EncodeFrames,
        EncodeRequests, Shapes;
    HonestPart(w.subs, w.logs, p.frames, w.owed, c.ringSize);
    ApplyAllSafe(c, w, p.frames);
    var v := w.(subs := ApplyAll(w.subs, p.frames));
    HonestRest(v.subs, v.logs, w.owed, |p.frames|, c.ringSize);
    ReadEffect(c, w, count);
    hide After, Enabled;
    TrafficSafe(c, v, After(c, w, Read(count)));
  }

  lemma ReadEffect(c: Setup, w: World, count: nat)
    requires Shaped(c, w) && Enabled(c, w, Read(count))
    requires var p := ParseFrames(w.repair.held + w.down[..count]); !p.bad && |p.frames| <= |w.owed|
    ensures var p := ParseFrames(w.repair.held + w.down[..count]);
      After(c, w, Read(count)) == w.(subs := ApplyAll(w.subs, p.frames), repair := w.repair.(held := p.rest),
                                     down := w.down[count..], owed := w.owed[|p.frames|..])
  {
    hide ParseFrames, ApplyAll;
  }

  lemma HonestRest(subs: seq<Tracked>, logs: seq<seq<OrderMessage>>, owed: seq<Frame>, taken: nat, size: nat)
    requires FramesHonest(subs, logs, owed, size) && taken <= |owed|
    ensures FramesHonest(subs, logs, owed[taken..], size)
  {
    hide HonestFrame;
    assert forall k | 0 <= k < |owed[taken..]| :: owed[taken..][k] == owed[taken + k];
  }

  lemma HonestPart(subs: seq<Tracked>, logs: seq<seq<OrderMessage>>, part: seq<Frame>, owed: seq<Frame>, size: nat)
    requires FramesHonest(subs, logs, owed, size) && part <= owed
    ensures FramesHonest(subs, logs, part, size)
  {
    hide HonestFrame;
    assert forall k | 0 <= k < |part| :: part[k] == owed[k];
  }

  // ---- every run ---------------------------------------------------------------------------------------

  lemma StartSafe(c: Setup)
    requires ValidSetup(c)
    ensures Safe(c, Start(c))
  {
    var w := Start(c);
    forall j | 0 <= j < |w.subs|
      ensures SubTrue(c, w.subs[j], w.logs, w.clock)
    {
      NewSane(c.joined[j], c.firstExpected, c.timing);
    }
    assert EncodeFrames([]) == [] && EncodeRequests([]) == [];
  }

  lemma StepSafe(c: Setup, w: World, step: Step)
    requires Safe(c, w) && Enabled(c, w, step)
    ensures Safe(c, After(c, w, step))
  {
    hide Safe;
    match step
    case Publish(m) => PublishSafe(c, w, m);
    case Finish => FinishSafe(c, w);
    case Send(i, s) => SendSafe(c, w, i, s);
    case Elapse(now) => ElapseSafe(c, w, now);
    case Receive(j, d) => ReceiveSafe(c, w, j, d);
    case Poll(j, connects, writes) => PollSafe(c, w, j, connects, writes);
    case Serve => ServeSafe(c, w);
    case Cut(kept) => CutSafe(c, w, kept);
    case Read(count) => ReadSafe(c, w, count);
    case Close => HangupSafe(c, w, w.repair.blockedUntil);
    case Deliver(j) => DeliverSafe(c, w, j);
  }

  /** The invariant holds in every world of every run. */
  lemma {:induction false} RunSafe(c: Setup, ws: seq<World>, steps: seq<Step>, n: nat)
    requires IsRun(c, ws, steps) && n < |ws|
    ensures Safe(c, ws[n])
    decreases n
  {
    if n == 0 {
      StartSafe(c);
    } else {
      RunSafe(c, ws, steps, n - 1);
      StepSafe(c, ws[n - 1], steps[n - 1]);
    }
  }
}
