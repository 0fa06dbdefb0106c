// When a repair is asked for, by the clock: not before the request delay is
// over, not again before the repeat interval is, and not at all while a failed
// attempt is being backed off from.
module RequestLaws {
  import opened Bytes
  import opened Messages
  import opened RepairWire
  import opened Buckets
  import opened Publishers
  import opened Tracking
  import opened Protocol
  import opened Safety
  import opened Guarantees
  import opened Continuations

  // ---- one bucket --------------------------------------------------------------

  /** Every hole ever asked for, and every number a request names, had been
      noticed more than the request delay before. */
  ghost predicate Patient(t: Tracked, timing: Timing) {
    && (forall h | h in t.b.holes && t.b.holes[h].asked != 0 ::
          t.b.holes[h].asked - t.b.holes[h].noticed > timing.nakDelay)
    && (forall k, s | 0 <= k < |t.r.asks| && s in t.r.asks[k].sequences ::
          s in t.r.noticedAt && t.r.asks[k].at - t.r.noticedAt[s] > timing.nakDelay)
  }

  /** From t to u nothing was asked for or noticed, and holes only closed. */
  ghost predicate Calm(t: Tracked, u: Tracked) {
    && u.r.asks == t.r.asks && u.r.noticedAt == t.r.noticedAt
    && forall h | h in u.b.holes :: h in t.b.holes && u.b.holes[h] == t.b.holes[h]
  }

  lemma FrameCalm(t: Tracked, f: Frame)
    ensures Calm(t, TFrame(t, f))
  {
  }

  lemma {:induction false} FramesCalm(subs: seq<Tracked>, fs: seq<Frame>, j: nat)
    requires j < |subs|
    ensures Calm(subs[j], ApplyAll(subs, fs)[j])
    decreases |fs|
  {
    hide TFrame;
    if fs != [] {
      var i := FindTracked(subs, fs[0].bucket);
      if i.Some? {
        FrameCalm(subs[i.value], fs[0]);
      }
      FramesCalm(ApplyOne(subs, fs[0]), fs[1..], j);
    }
  }

  /** A datagram opens holes that were never asked for, and forgets no notice. */
  lemma AcceptPatient(t: Tracked, sequence: u64, m: OrderMessage, now: nat, backfill: nat, timing: Timing)
    requires Covered(t) && Orderly(t.b) && Patient(t, timing)
    ensures Patient(TAccept(t, sequence, m, now, backfill), timing)
  {
    AcceptNotices(t, sequence, m, now, backfill);
    AcceptExactly(t.b, sequence, m, now, backfill);
    NoticesKept(t, sequence, m, now, backfill);
    var u := TAccept(t, sequence, m, now, backfill);
    assert u.r.asks == t.r.asks && u.b == Accept(t.b, sequence, m, now, backfill);
    hide TAccept, Accept, Covered, Orderly;
  }

  lemma NoticesKept(t: Tracked, sequence: u64, m: OrderMessage, now: nat, backfill: nat)
    requires Covered(t) && Orderly(t.b)
    ensures var u := TAccept(t, sequence, m, now, backfill);
      forall s | s in t.r.noticedAt :: s in u.r.noticedAt && u.r.noticedAt[s] == t.r.noticedAt[s]
  {
    var v, u := Synced(t, sequence, backfill), TAccept(t, sequence, m, now, backfill);
    assert Covered(v) && v.r.noticedAt == t.r.noticedAt;
    hide Covered, Orderly, Known;
    if !Duplicate(v.b, sequence) {
      assert u.b == Accept(v.b, sequence, m, now, 0);
      forall h | h in NewHoles(v.b, u.b) ensures h !in v.r.noticedAt {
        NewHolesAreNew(v, sequence, m, now, h);
      }
    }
  }

  /** A tick asks for due holes only. */
  lemma NakPatient(t: Tracked, r: Repair, now: nat, timing: Timing, connects: bool, writes: bool)
    requires Covered(t) && StampedBy(t.b, now) && Patient(t, timing)
    ensures Patient(TNak(t, r, now, timing, connects, writes), timing)
  {
    var n, u := Nak(t.b, r, now, timing, connects, writes), TNak(t, r, now, timing, connects, writes);
    NakOnHoles(t.b, r, now, timing, connects, writes);
    assert u.b == n.bucket && u.r.noticedAt == t.r.noticedAt;
    assert u.r.asks == if n.asked == [] then t.r.asks else t.r.asks + [Ask(now, n.asked)];
    hide TNak, Nak, Patient;
    forall s | s in n.asked ensures s in t.r.noticedAt && now - t.r.noticedAt[s] > timing.nakDelay {
      WaitedFor(t, s, now, timing);
    }
    hide Covered;
    AskedPatient(t, u, n.asked, now, timing);
  }

  lemma WaitedFor(t: Tracked, s: u64, now: nat, timing: Timing)
    requires Covered(t) && StampedBy(t.b, now) && Patient(t, timing)
    requires s in t.b.holes && (if t.b.holes[s].asked == 0 then now - t.b.holes[s].noticed > timing.nakDelay
                                else now - t.b.holes[s].asked > timing.nakRepeat)
    ensures s in t.r.noticedAt && t.r.noticedAt[s] == t.b.holes[s].noticed
    ensures now - t.r.noticedAt[s] > timing.nakDelay
  {
  }

  lemma AskedPatient(t: Tracked, u: Tracked, asked: seq<u64>, now: nat, timing: Timing)
    requires Patient(t, timing) && u.r.noticedAt == t.r.noticedAt
    requires u.r.asks == if asked == [] then t.r.asks else t.r.asks + [Ask(now, asked)]
    requires forall s | s in asked :: s in t.r.noticedAt && now - t.r.noticedAt[s] > timing.nakDelay
    requires forall s | s in asked && s in u.b.holes :: t.r.noticedAt[s] == u.b.holes[s].noticed
    requires forall s | s in u.b.holes ::
      s in t.b.holes && u.b.holes[s] == t.b.holes[s].(asked := if s in asked then now else t.b.holes[s].asked)
    ensures Patient(u, timing)
  {
  }

  lemma CalmPatient(t: Tracked, u: Tracked, timing: Timing)
    requires Patient(t, timing) && Calm(t, u)
    ensures Patient(u, timing)
  {
  }

  lemma BucketPatient(c: Setup, w: World, step: Step, j: nat)
    requires j < |w.subs| && (step.Read? ==> step.count <= |w.down|)
    requires Covered(w.subs[j]) && Orderly(w.subs[j].b) && StampedBy(w.subs[j].b, w.clock)
    requires Patient(w.subs[j], c.timing)
    ensures Patient(BucketAfter(c, w, step, j), c.timing)
  {
    hide Covered, Orderly, Patient, ParseFrames, ApplyAll, ReleaseAll, TNak, TAccept, DgramDecode, StampedBy;
    var t := w.subs[j];
    match step
    case Read(count) =>
      FramesCalm(w.subs, ParseFrames(w.repair.held + w.down[..count]).frames, j);
      CalmPatient(t, BucketAfter(c, w, step, j), c.timing);
    case Receive(k, d) =>
      if k == j && DgramDecode(d).Some? {
        AcceptPatient(t, DgramDecode(d).value.sequence, DgramDecode(d).value.message, w.clock, c.backfill, c.timing);
      }
    case Poll(k, connects, writes) =>
      NakPatient(t, w.repair, w.clock, c.timing, connects, writes);
    case Deliver(k) =>
      ReleaseKeepsHoles(t.b);
      CalmPatient(t, BucketAfter(c, w, step, j), c.timing);
    case _ =>
  }

  lemma SafeStamps(c: Setup, w: World, j: nat)
    requires Safe(c, w) && j < |w.subs|
    ensures Covered(w.subs[j]) && Orderly(w.subs[j].b) && StampedBy(w.subs[j].b, w.clock)
  {
    assert SubTrue(c, w.subs[j], w.logs, w.clock);
  }

  lemma NewPatient(c: Setup, j: nat)
    requires j < |c.joined|
    ensures Patient(Start(c).subs[j], c.timing)
  {
  }

  /** In every run each request names a number only more than the request delay
      after it was noticed missing. */
  lemma {:induction false} RequestsWait(c: Setup, ws: seq<World>, steps: seq<Step>, n: nat, j: nat)
    requires IsRun(c, ws, steps) && n < |ws| && j < |c.joined|
    ensures |ws[n].subs| == |c.joined|
    ensures var r := ws[n].subs[j].r;
      forall k, s | 0 <= k < |r.asks| && s in r.asks[k].sequences ::
        s in r.noticedAt && r.asks[k].at - r.noticedAt[s] > c.timing.nakDelay
    ensures Patient(ws[n].subs[j], c.timing)
    decreases n
  {
    hide After, Enabled, Safe, Shaped, Patient, Covered, Orderly, StampedBy;
    ShapedThroughout(c, ws, steps, n);
    if n == 0 {
      assert ws[0] == Start(c);
      NewPatient(c, j);
    } else {
      hide IsRun, BucketAfter;
      RequestsWait(c, ws, steps, n - 1, j);
      RunStep(c, ws, steps, n - 1);
      SafeStamps(c, ws[n - 1], j);
      StepOnBucket(c, ws[n - 1], steps[n - 1], j);
      BucketPatient(c, ws[n - 1], steps[n - 1], j);
    }
    PatientAsks(ws[n].subs[j], c.timing);
  }

  lemma PatientAsks(t: Tracked, timing: Timing)
    requires Patient(t, timing)
    ensures forall k, s | 0 <= k < |t.r.asks| && s in t.r.asks[k].sequences ::
        s in t.r.noticedAt && t.r.asks[k].at - t.r.noticedAt[s] > timing.nakDelay
  {
  }

  // ---- the records are what happened ---------------------------------------------

  /** What a step does to a hole that is open after it: it was open before, with
      the same notice, or a datagram opened it at this moment. */
  lemma HoleStep(c: Setup, w: World, step: Step, j: nat, s: u64)
    requires j < |w.subs| && (step.Read? ==> step.count <= |w.down|)
    requires s in BucketAfter(c, w, step, j).b.holes
    ensures var was, hole := w.subs[j].b.holes, BucketAfter(c, w, step, j).b.holes[s];
      if s in was then hole.noticed == was[s].noticed
      else step.Receive? && step.joined == j && hole == Hole(w.clock, 0)
  {
    hide ParseFrames, ApplyAll, ReleaseAll, Nak, Accept, DgramDecode;
    var t := w.subs[j];
    match step
    case Read(count) => FramesCalm(w.subs, ParseFrames(w.repair.held + w.down[..count]).frames, j);
    case Receive(k, d) =>
      if k == j && DgramDecode(d).Some? {
        AcceptExactly(t.b, DgramDecode(d).value.sequence, DgramDecode(d).value.message, w.clock, c.backfill);
      }
    case Poll(k, connects, writes) => NakOnHoles(t.b, w.repair, w.clock, c.timing, connects, writes);
    case Deliver(k) => ReleaseKeepsHoles(t.b);
    case _ =>
  }

  /** Step k opened the hole s of bucket j at this moment. */
  ghost predicate OpenedAt(c: Setup, ws: seq<World>, steps: seq<Step>, k: nat, j: nat, s: u64, at: nat) {
    && k < |steps| && k + 1 < |ws| && j < |ws[k].subs| && j < |ws[k + 1].subs|
    && BecomesHole(ws, k, j, s) && ws[k].clock == at && steps[k].Receive? && steps[k].joined == j
  }

  /** Every open hole was opened by some datagram, at the time it says. */
  lemma {:induction false} HoleSince(c: Setup, ws: seq<World>, steps: seq<Step>, n: nat, j: nat, s: u64)
    requires IsRun(c, ws, steps) && n < |ws| && j < |c.joined| && |ws[n].subs| == |c.joined|
    requires s in ws[n].subs[j].b.holes
    ensures exists k: nat | k < n :: OpenedAt(c, ws, steps, k, j, s, ws[n].subs[j].b.holes[s].noticed)
    decreases n
  {
    hide IsRun, After, Enabled, Safe, Shaped, BucketAfter;
    RunShape(c, ws, steps);
    if n == 0 {
      NoHolesAtStart(c, ws, steps, j);
    } else {
      RunStep(c, ws, steps, n - 1);
      StepInRange(c, ws[n - 1], steps[n - 1]);
      StepOnBucket(c, ws[n - 1], steps[n - 1], j);
      HoleStep(c, ws[n - 1], steps[n - 1], j, s);
      if s in ws[n - 1].subs[j].b.holes {
        HoleSince(c, ws, steps, n - 1, j, s);
      } else {
        assert OpenedAt(c, ws, steps, n - 1, j, s, ws[n].subs[j].b.holes[s].noticed);
      }
    }
  }

  lemma NoHolesAtStart(c: Setup, ws: seq<World>, steps: seq<Step>, j: nat)
    requires IsRun(c, ws, steps) && j < |c.joined|
    ensures |ws| > 0 && |ws[0].subs| == |c.joined| && ws[0].subs[j].b.holes == map[]
  {
    hide After, Enabled, Shaped;
    assert ws[0] == Start(c);
  }

  /** In every run, a tick that asks for s does so more than the request delay,
      and no more than the give-up time, after the step at which the number was
      noticed missing. */
  lemma AskedInTime(c: Setup, ws: seq<World>, steps: seq<Step>, n: nat, j: nat, connects: bool, writes: bool, s: u64)
    requires IsRun(c, ws, steps) && n < |steps| && j < |c.joined| && steps[n] == Poll(j, connects, writes)
    requires |ws| == |steps| + 1 && |ws[n].subs| == |c.joined|
    requires s in Nak(ws[n].subs[j].b, ws[n].repair, ws[n].clock, c.timing, connects, writes).asked
    ensures exists k: nat, at: nat | k < n ::
        OpenedAt(c, ws, steps, k, j, s, at) && c.timing.nakDelay < ws[n].clock - at <= c.timing.giveup
  {
    var w, t := ws[n], ws[n].subs[j];
    hide IsRun, Nak, Safe, Covered, Orderly, StampedBy, OpenedAt;
    RunSafe(c, ws, steps, n);
    SafeStamps(c, w, j);
    RequestsWait(c, ws, steps, n, j);
    NakOnHoles(t.b, w.repair, w.clock, c.timing, connects, writes);
    WaitedFor(t, s, w.clock, c.timing);
    HoleSince(c, ws, steps, n, j, s);
  }

  /** Every request a bucket's ticks sent in the first n steps, and when. */
  ghost function RequestsSent(c: Setup, ws: seq<World>, steps: seq<Step>, n: nat, j: nat): seq<Ask>
    requires IsRun(c, ws, steps) && n < |ws| && j < |c.joined|
    decreases n
  {
    if n == 0 then [] else RequestsSent(c, ws, steps, n - 1, j) + RequestsOf(c, ws[n - 1], steps[n - 1], j)
  }

  function RequestsOf(c: Setup, w: World, step: Step, j: nat): seq<Ask>
    requires j < |w.subs|
  {
    match step
    case Poll(k, connects, writes) =>
      var asked := Nak(w.subs[j].b, w.repair, w.clock, c.timing, connects, writes).asked;
      if k == j && asked != [] then [Ask(w.clock, asked)] else []
    case _ => []
  }

  lemma BucketAsks(c: Setup, w: World, step: Step, j: nat)
    requires j < |w.subs| && (step.Read? ==> step.count <= |w.down|)
    ensures BucketAfter(c, w, step, j).r.asks == w.subs[j].r.asks + RequestsOf(c, w, step, j)
  {
    hide ParseFrames, ApplyAll, ReleaseAll, Nak, Accept, DgramDecode;
    assert w.subs[j].r.asks + [] == w.subs[j].r.asks;
    if step.Read? {
      FramesCalm(w.subs, ParseFrames(w.repair.held + w.down[..step.count]).frames, j);
    }
  }

  /** The requests on record are those that were sent, in order, at their times. */
  lemma {:induction false} AsksAreSent(c: Setup, ws: seq<World>, steps: seq<Step>, n: nat, j: nat)
    requires IsRun(c, ws, steps) && n < |ws| && j < |c.joined|
    ensures |ws[n].subs| == |c.joined| && ws[n].subs[j].r.asks == RequestsSent(c, ws, steps, n, j)
    decreases n
  {
    hide After, Enabled, Safe, Shaped, BucketAfter, RequestsOf;
    if n == 0 {
      assert ws[0] == Start(c);
    } else {
      RunStep(c, ws, steps, n - 1);
      hide IsRun;
      AsksAreSent(c, ws, steps, n - 1, j);
      StepInRange(c, ws[n - 1], steps[n - 1]);
      StepOnBucket(c, ws[n - 1], steps[n - 1], j);
      BucketAsks(c, ws[n - 1], steps[n - 1], j);
    }
  }

  // ---- backing off ---------------------------------------------------------------

  /** A tick of some bucket that has something to ask for and may try, and whose
      connect or write fails. */
  ghost predicate AttemptFails(c: Setup, w: World, step: Step) {
    && step.Poll? && step.joined < |w.subs|
    && (exists s: u64 :: DueAt(w.subs[step.joined].b, s, w.clock, c.timing))
    && (w.repair.open || w.repair.blockedUntil <= w.clock)
    && !(step.writes && (w.repair.open || step.connects))
  }

  /** Only ticks bring the connection up or hold connects back; time passes one
      way. */
  lemma ConnectionStep(c: Setup, w: World, step: Step)
    requires Shaped(c, w) && Enabled(c, w, step)
    ensures var v := After(c, w, step);
      && w.clock <= v.clock
      && (!step.Poll? ==> v.repair.blockedUntil == w.repair.blockedUntil && (v.repair.open ==> w.repair.open))
  {
    hide Shaped, TReceive, TNak, TRelease, ApplyAll, ParseFrames, Nak, Stored, Answers, EncodeFrames, BucketOf,
        DatagramFor, ReadRequest, EncodeRequest;
  }

  lemma PollStep(c: Setup, w: World, j: nat, connects: bool, writes: bool)
    requires Shaped(c, w) && Enabled(c, w, Poll(j, connects, writes)) && j < |w.subs|
    ensures After(c, w, Poll(j, connects, writes)).repair
         == Nak(w.subs[j].b, w.repair, w.clock, c.timing, connects, writes).repair
  {
    hide Shaped, Nak, TNak, EncodeRequest;
  }

  /** Whatever step follows, connects stay held back until `until`. */
  lemma StaysBackedOff(c: Setup, w: World, step: Step, until: nat)
    requires Safe(c, w) && Enabled(c, w, step)
    requires w.repair.blockedUntil >= until && (w.clock < until ==> !w.repair.open)
    ensures var v := After(c, w, step);
      v.repair.blockedUntil >= until && (v.clock < until ==> !v.repair.open)
  {
    hide Safe, Shaped, After, Enabled, Nak;
    StillShaped(c, w);
    StepInRange(c, w, step);
    ConnectionStep(c, w, step);
    if step.Poll? {
      PollStep(c, w, step.joined, step.connects, step.writes);
      NakOnConnection(w.subs[step.joined].b, w.repair, w.clock, c.timing, step.connects, step.writes);
    }
  }

  lemma ClosedCarriesNothing(c: Setup, w: World)
    requires Safe(c, w)
    ensures !w.repair.open ==> w.repair.held == [] && w.up == [] && w.down == []
  {
    assert WireTrue(w.repair.open, w.repair.held, w.up, w.down, w.cut, w.pending, w.owed);
    hide Shaped, SubsTrue, SentTrue, PublisherTrue, RequestsHonest, FramesHonest, EncodeFrames, EncodeRequests;
  }

  /** In every run, after a connect or a write failed, the connection stays down
      and carries nothing until the retry time has passed. */
  lemma {:induction false} BackedOff(c: Setup, ws: seq<World>, steps: seq<Step>, k: nat, n: nat)
    requires IsRun(c, ws, steps) && k < n < |ws| && |ws| == |steps| + 1 && AttemptFails(c, ws[k], steps[k])
    ensures ws[n].repair.blockedUntil >= ws[k].clock + c.timing.retry
    ensures ws[n].clock < ws[k].clock + c.timing.retry
        ==> !ws[n].repair.open && ws[n].repair.held == [] && ws[n].up == [] && ws[n].down == []
    decreases n
  {
    hide IsRun, Safe, Shaped, After, Enabled, Nak;
    var until := ws[k].clock + c.timing.retry;
    RunStep(c, ws, steps, n - 1);
    ClosedCarriesNothing(c, ws[n]);
    if n == k + 1 {
      var w, step := ws[k], steps[k];
      PollStep(c, w, step.joined, step.connects, step.writes);
      NakOnConnection(w.subs[step.joined].b, w.repair, w.clock, c.timing, step.connects, step.writes);
    } else {
      BackedOff(c, ws, steps, k, n - 1);
      StaysBackedOff(c, ws[n - 1], steps[n - 1], until);
    }
  }

  /** A failed attempt costs nothing: whatever was due still is. */
  lemma FailureKeepsDue(c: Setup, w: World, step: Step, s: u64)
    requires Shaped(c, w) && Enabled(c, w, step) && AttemptFails(c, w, step)
    ensures |After(c, w, step).subs| == |w.subs|
    ensures DueAt(After(c, w, step).subs[step.joined].b, s, w.clock, c.timing)
       <==> DueAt(w.subs[step.joined].b, s, w.clock, c.timing)
  {
    hide Shaped, After, Enabled, Nak;
    var b := w.subs[step.joined].b;
    StepOnBucket(c, w, step, step.joined);
    NakOnConnection(b, w.repair, w.clock, c.timing, step.connects, step.writes);
    NakOnHoles(b, w.repair, w.clock, c.timing, step.connects, step.writes);
  }
}
