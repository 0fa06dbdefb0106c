// What becomes of every datagram a bucket is handed, stated by the datagrams
// and the steps that brought them.
module ArrivalLaws {
  import opened Bytes
  import opened Messages
  import opened RepairWire
  import opened Buckets
  import opened Tracking
  import opened Protocol
  import opened Safety
  import opened Guarantees

  /** The number under which the step hands bucket j a datagram of its own. */
  function OwnNumber(c: Setup, step: Step, j: nat): Option<u64>
    requires j < |c.joined|
  {
    if !step.Receive? || step.joined != j then None
    else match DgramDecode(step.datagram)
         case None => None
         case Some(d) => if d.bucket == c.joined[j] then Some(d.sequence) else None
  }

  // ---- one datagram ------------------------------------------------------------

  /** A datagram of its own that is new to a bucket is parked; after any, its
      number is parked or passed. */
  lemma ReceiveParks(c: Setup, w: World, j: nat, d: seq<byte>)
    requires Shaped(c, w) && Enabled(c, w, Receive(j, d)) && j < |w.subs| == |c.joined|
    requires OwnNumber(c, Receive(j, d), j).Some?
    ensures var s, u := OwnNumber(c, Receive(j, d), j).value, After(c, w, Receive(j, d)).subs;
      |u| == |w.subs| && (s < u[j].b.next || s in u[j].b.parked)
  {
    hide Shaped, Accept, DgramDecode;
    OwnTaken(c, w, j, d);
    var g := DgramDecode(d).value;
    AcceptExactly(w.subs[j].b, g.sequence, g.message, w.clock, c.backfill);
  }

  lemma OwnTaken(c: Setup, w: World, j: nat, d: seq<byte>)
    requires Shaped(c, w) && Enabled(c, w, Receive(j, d)) && j < |w.subs| == |c.joined|
    requires OwnNumber(c, Receive(j, d), j).Some?
    ensures DgramDecode(d).Some? && DgramDecode(d).value.sequence == OwnNumber(c, Receive(j, d), j).value
    ensures |After(c, w, Receive(j, d)).subs| == |w.subs|
    ensures var g := DgramDecode(d).value;
      After(c, w, Receive(j, d)).subs[j] == TAccept(w.subs[j], g.sequence, g.message, w.clock, c.backfill)
  {
    assert w.subs[j].b.id == c.joined[j];
    hide Shaped, TAccept, DgramDecode;
  }

  lemma UnsyncedEmpty(c: Setup, w: World, j: nat)
    requires Safe(c, w) && j < |w.subs| && !w.subs[j].b.synced
    ensures var b := w.subs[j].b; b.parked == map[] && b.holes == map[] && b.gone == {}
  {
    assert SubTrue(c, w.subs[j], w.logs, w.clock);
  }

  /** What was sent is numbered from 1. */
  lemma SentNumbered(c: Setup, w: World, d: seq<byte>)
    requires Safe(c, w) && d in w.sent && DgramDecode(d).Some?
    ensures DgramDecode(d).value.sequence >= 1
  {
    hide Safe, DgramDecode, Genuine;
    SentGenuine(c, w, d);
    var (i, s) := w.sent[d];
    GenuineNumbered(d, i, s, w.logs);
  }

  lemma SentGenuine(c: Setup, w: World, d: seq<byte>)
    requires Safe(c, w) && d in w.sent
    ensures Genuine(d, w.sent[d].0, w.sent[d].1, w.logs)
  {
    hide Shaped, WireTrue, PublisherTrue, SubsTrue, RequestsHonest, FramesHonest, Genuine;
  }

  lemma GenuineNumbered(d: seq<byte>, i: nat, s: nat, logs: seq<seq<OrderMessage>>)
    requires Genuine(d, i, s, logs)
    ensures DgramDecode(d).Some? && DgramDecode(d).value.sequence == s >= 1
  {
    hide Encode, DgramDecode, DgramEncode, Messages.Decode;
    DgramRead(d, i, s, Encode(logs[i][s - 1]));
  }

  /** The first datagram a bucket that joined live is handed: without a backfill
      the bucket starts at that very number, with no hole; with one, so many
      numbers before it, but never before 1, and exactly the numbers from there
      to it are holes, noticed now. */
  lemma JoinsLive(c: Setup, w: World, j: nat, d: seq<byte>)
    requires Safe(c, w) && Shaped(c, w) && Enabled(c, w, Receive(j, d)) && j < |w.subs| == |c.joined|
    requires !w.subs[j].b.synced && OwnNumber(c, Receive(j, d), j).Some?
    ensures |After(c, w, Receive(j, d)).subs| == |w.subs|
    ensures var s, b := OwnNumber(c, Receive(j, d), j).value, After(c, w, Receive(j, d)).subs[j].b;
      && b.synced && b.parked.Keys == {s}
      && (c.backfill == 0 ==> b.next == s && b.holes == map[])
      && (c.backfill > 0 ==> b.next == if s - c.backfill >= 1 then s - c.backfill else 1)
      && (forall x: u64 :: x in b.holes <==> b.next <= x < s)
      && (forall x | x in b.holes :: b.holes[x] == Hole(w.clock, 0))
  {
    hide Safe, Shaped, Accept, DgramDecode, OwnNumber;
    UnsyncedEmpty(c, w, j);
    OwnTaken(c, w, j, d);
    var g := DgramDecode(d).value;
    assert d in w.sent;
    SentNumbered(c, w, d);
    AcceptExactly(w.subs[j].b, g.sequence, g.message, w.clock, c.backfill);
    hide After, Enabled;
    FirstParked(w.subs[j].b, g.sequence, g.message, w.clock, c.backfill);
  }

  lemma FirstParked(b: Bucket, s: u64, m: OrderMessage, now: nat, backfill: nat)
    requires !b.synced && b.parked == map[] && b.holes == map[] && b.gone == {} && s >= 1
    ensures var c := Accept(b, s, m, now, backfill);
      && c.parked == map[s := m] && (backfill == 0 ==> c.holes == map[])
      && (forall x: u64 :: x in c.holes <==> c.next <= x < s)
  {
    AcceptExactly(b, s, m, now, backfill);
  }

  // ---- every datagram of a run --------------------------------------------------

  /** How many of the first n steps handed bucket j a datagram of its own. */
  ghost function OwnReceived(c: Setup, steps: seq<Step>, n: nat, j: nat): nat
    requires n <= |steps| && j < |c.joined|
    decreases n
  {
    if n == 0 then 0 else OwnReceived(c, steps, n - 1, j) + (if OwnNumber(c, steps[n - 1], j).Some? then 1 else 0)
  }

  /** Datagrams counted: parked when they came, or counted duplicates. */
  function Brought(t: Tracked): nat {
    t.r.byUdp + t.b.stats.duplicates
  }

  lemma AcceptBrings(t: Tracked, sequence: u64, m: OrderMessage, now: nat, backfill: nat)
    ensures Brought(TAccept(t, sequence, m, now, backfill)) == Brought(t) + 1
  {
  }

  lemma FrameBringsNone(t: Tracked, f: Frame)
    ensures Brought(TFrame(t, f)) == Brought(t)
  {
  }

  lemma {:induction false} FramesBringNone(subs: seq<Tracked>, fs: seq<Frame>, j: nat)
    requires j < |subs|
    ensures Brought(ApplyAll(subs, fs)[j]) == Brought(subs[j])
    decreases |fs|
  {
    hide TFrame, Brought;
    if fs != [] {
      var i := FindTracked(subs, fs[0].bucket);
      if i.Some? {
        FrameBringsNone(subs[i.value], fs[0]);
      }
      FramesBringNone(ApplyOne(subs, fs[0]), fs[1..], j);
    }
  }

  lemma NakBringsNone(t: Tracked, r: Repair, now: nat, timing: Timing, connects: bool, writes: bool)
    ensures Brought(TNak(t, r, now, timing, connects, writes)) == Brought(t)
  {
  }

  lemma {:induction false} ReleaseBringsNone(t: Tracked)
    ensures Brought(TRelease(t)) == Brought(t)
    decreases |t.b.parked| + |t.b.gone|
  {
    if ReleaseOne(t.b).None? {
      NoRelease(t);
    } else {
      ReleaseStep(t);
      ReleaseBringsNone(TReleaseOne(t));
    }
  }

  lemma BucketBrought(c: Setup, w: World, step: Step, j: nat)
    requires j < |w.subs| == |c.joined| && (step.Read? ==> step.count <= |w.down|)
    requires w.subs[j].b.id == c.joined[j]
    ensures Brought(BucketAfter(c, w, step, j))
         == Brought(w.subs[j]) + (if OwnNumber(c, step, j).Some? then 1 else 0)
  {
    hide ParseFrames, ApplyAll, TRelease, TNak, TAccept, DgramDecode, Brought;
    var t := w.subs[j];
    match step
    case Read(count) => FramesBringNone(w.subs, ParseFrames(w.repair.held + w.down[..count]).frames, j);
    case Receive(k, d) =>
      if k == j && DgramDecode(d).Some? {
        AcceptBrings(t, DgramDecode(d).value.sequence, DgramDecode(d).value.message, w.clock, c.backfill);
      }
    case Poll(k, connects, writes) => NakBringsNone(t, w.repair, w.clock, c.timing, connects, writes);
    case Deliver(k) => ReleaseBringsNone(t);
    case _ =>
  }

  lemma {:induction false} AllBrought(c: Setup, ws: seq<World>, steps: seq<Step>, n: nat, j: nat)
    requires IsRun(c, ws, steps) && n < |ws| && j < |c.joined|
    ensures |ws| == |steps| + 1 && |ws[n].subs| == |c.joined|
    ensures Brought(ws[n].subs[j]) == OwnReceived(c, steps, n, j)
    decreases n
  {
    hide IsRun, After, Enabled, Safe, Shaped, BucketAfter, Brought, OwnNumber;
    RunShape(c, ws, steps);
    if n == 0 {
      NothingBrought(c, ws, steps, j);
    } else {
      AllBrought(c, ws, steps, n - 1, j);
      RunStep(c, ws, steps, n - 1);
      StepInRange(c, ws[n - 1], steps[n - 1]);
      OwnId(c, ws[n - 1], j);
      StepOnBucket(c, ws[n - 1], steps[n - 1], j);
      BucketBrought(c, ws[n - 1], steps[n - 1], j);
    }
  }

  lemma NothingBrought(c: Setup, ws: seq<World>, steps: seq<Step>, j: nat)
    requires IsRun(c, ws, steps) && j < |c.joined|
    ensures |ws| > 0 && |ws[0].subs| == |c.joined| && Brought(ws[0].subs[j]) == 0
  {
    hide After, Enabled, Shaped;
    assert ws[0] == Start(c);
  }

  /** In every run no datagram and no repair goes uncounted: what a bucket was
      handed of its own, and what was repaired, was delivered, is parked, is the
      end marker, or is counted a duplicate. */
  lemma DatagramsCounted(c: Setup, ws: seq<World>, steps: seq<Step>, n: nat, j: nat)
    requires IsRun(c, ws, steps) && n < |ws| && j < |c.joined|
    ensures |ws| == |steps| + 1 && |ws[n].subs| == |c.joined|
    ensures var b := ws[n].subs[j].b;
      OwnReceived(c, steps, n, j) + b.stats.repaired
        == b.stats.delivered + |b.parked| + b.stats.duplicates + (if b.done then 1 else 0)
  {
    hide IsRun, OwnReceived;
    AllBrought(c, ws, steps, n, j);
    Conservation(c, ws, steps, n, j);
  }

  // ---- how far the stream was seen ------------------------------------------------

  lemma AcceptRaises(t: Tracked, sequence: u64, m: OrderMessage, now: nat, backfill: nat)
    requires t.b.synced ==> t.r.hi + 1 >= t.b.next && forall s | s in t.b.parked :: s <= t.r.hi
    requires !t.b.synced ==> t.b.parked == map[]
    ensures var u := TAccept(t, sequence, m, now, backfill);
      sequence <= u.r.hi && (t.b.synced ==> t.r.hi <= u.r.hi) && u.b.synced
  {
  }

  lemma SafeHigh(c: Setup, w: World, j: nat)
    requires Safe(c, w) && j < |w.subs|
    ensures var t := w.subs[j];
      t.r.hi + 1 >= t.b.next && (forall s | s in t.b.parked :: s <= t.r.hi) && (!t.b.synced ==> t.b.parked == map[])
  {
    assert SubTrue(c, w.subs[j], w.logs, w.clock);
  }

  lemma {:induction false} FramesKeepHigh(subs: seq<Tracked>, fs: seq<Frame>, j: nat)
    requires j < |subs|
    ensures ApplyAll(subs, fs)[j].r.hi == subs[j].r.hi
    decreases |fs|
  {
    if fs != [] {
      FramesKeepHigh(ApplyOne(subs, fs[0]), fs[1..], j);
    }
  }

  lemma BucketRaises(c: Setup, w: World, step: Step, j: nat)
    requires j < |w.subs| == |c.joined| && (step.Read? ==> step.count <= |w.down|)
    requires w.subs[j].b.id == c.joined[j]
    requires var t := w.subs[j];
      t.r.hi + 1 >= t.b.next && (forall s | s in t.b.parked :: s <= t.r.hi) && (!t.b.synced ==> t.b.parked == map[])
    ensures var t, u, number := w.subs[j], BucketAfter(c, w, step, j), OwnNumber(c, step, j);
      && (t.b.synced ==> t.r.hi <= u.r.hi) && (number.Some? ==> number.value <= u.r.hi && u.b.synced)
  {
    hide ParseFrames, ApplyAll, ReleaseAll, Nak, TAccept, DgramDecode;
    var t := w.subs[j];
    match step
    case Read(count) => FramesKeepHigh(w.subs, ParseFrames(w.repair.held + w.down[..count]).frames, j);
    case Receive(k, d) =>
      if k == j && DgramDecode(d).Some? {
        AcceptRaises(t, DgramDecode(d).value.sequence, DgramDecode(d).value.message, w.clock, c.backfill);
      }
    case _ =>
  }

  /** The bucket is synced, and has seen as far as the datagram step k handed it. */
  lemma {:induction false} SeenSince(c: Setup, ws: seq<World>, steps: seq<Step>, k: nat, n: nat, j: nat)
    requires IsRun(c, ws, steps) && k < n < |ws| && |ws| == |steps| + 1 && j < |c.joined|
    requires OwnNumber(c, steps[k], j).Some?
    ensures |ws[n].subs| == |c.joined| && ws[n].subs[j].b.synced
    ensures OwnNumber(c, steps[k], j).value <= ws[n].subs[j].r.hi
    decreases n
  {
    hide IsRun, After, Enabled, Safe, Shaped, BucketAfter, OwnNumber;
    RunStep(c, ws, steps, n - 1);
    StepInRange(c, ws[n - 1], steps[n - 1]);
    OwnId(c, ws[n - 1], j);
    SafeHigh(c, ws[n - 1], j);
    StepOnBucket(c, ws[n - 1], steps[n - 1], j);
    BucketRaises(c, ws[n - 1], steps[n - 1], j);
    if k < n - 1 {
      SeenSince(c, ws, steps, k, n - 1, j);
      StepKeepsStart(c, ws[n - 1], steps[n - 1], j);
    }
  }

  /** In every run, once a bucket was handed the datagram of some number, every
      number from the one wanted next to that one is parked, written off, or a
      hole, at every later moment. */
  lemma NoNumberSkipped(c: Setup, ws: seq<World>, steps: seq<Step>, k: nat, n: nat, j: nat, s: u64)
    requires IsRun(c, ws, steps) && k < n < |ws| && |ws| == |steps| + 1 && j < |c.joined|
    requires OwnNumber(c, steps[k], j).Some?
    ensures |ws[n].subs| == |c.joined|
    ensures var b := ws[n].subs[j].b;
      b.next <= s <= OwnNumber(c, steps[k], j).value ==> s in b.parked || s in b.gone || s in b.holes
  {
    hide IsRun, OwnNumber;
    SeenSince(c, ws, steps, k, n, j);
    NoForgottenGap(c, ws, steps, n, j);
  }

  // ---- where a live join starts ---------------------------------------------------

  /** Until it is handed a datagram of its own, a bucket that joined live is not
      synced. */
  lemma {:induction false} UnsyncedUntil(c: Setup, ws: seq<World>, steps: seq<Step>, n: nat, j: nat)
    requires IsRun(c, ws, steps) && n < |ws| && |ws| == |steps| + 1 && j < |c.joined| && c.firstExpected == 0
    requires forall i | 0 <= i < n :: OwnNumber(c, steps[i], j).None?
    ensures |ws[n].subs| == |c.joined| && !ws[n].subs[j].b.synced
    decreases n
  {
    hide IsRun, After, Enabled, Safe, Shaped, SyncsAt;
    if n == 0 {
      StartsUnsynced(c, ws, steps, j);
    } else {
      UnsyncedUntil(c, ws, steps, n - 1, j);
      StepSyncs(c, ws, steps, n - 1, j);
      if ws[n].subs[j].b.synced {
        SyncIsOwn(c, ws, steps, n - 1, j, ws[n].subs[j].r.start);
      }
    }
  }

  lemma StartsUnsynced(c: Setup, ws: seq<World>, steps: seq<Step>, j: nat)
    requires IsRun(c, ws, steps) && j < |c.joined| && c.firstExpected == 0
    ensures |ws| > 0 && |ws[0].subs| == |c.joined| && !ws[0].subs[j].b.synced
  {
    hide After, Enabled, Shaped;
    assert ws[0] == Start(c);
  }

  /** What syncs a bucket is a datagram of its own. */
  lemma SyncIsOwn(c: Setup, ws: seq<World>, steps: seq<Step>, k: nat, j: nat, start: nat)
    requires k < |steps| && k < |ws| && j < |ws[k].subs| && j < |c.joined|
    requires SyncsAt(c, ws, steps, k, j, start)
    ensures OwnNumber(c, steps[k], j).Some?
    ensures var s := OwnNumber(c, steps[k], j).value;
      start == if c.backfill == 0 then s else if s - c.backfill >= 1 then s - c.backfill else 1
  {
    hide DgramDecode;
  }

  /** In every run, a bucket that joined live starts where the first datagram of
      its own puts it: at that very number without a backfill, and with one so
      many numbers before it, but never before 1. There it starts ever after, and
      no number below is ever noticed missing. */
  lemma {:induction false} FirstDatagramDecides(c: Setup, ws: seq<World>, steps: seq<Step>, k: nat, n: nat, j: nat)
    requires IsRun(c, ws, steps) && k < n < |ws| && |ws| == |steps| + 1 && j < |c.joined| && c.firstExpected == 0
    requires OwnNumber(c, steps[k], j).Some? && forall i | 0 <= i < k :: OwnNumber(c, steps[i], j).None?
    ensures |ws[n].subs| == |c.joined|
    ensures var s, t := OwnNumber(c, steps[k], j).value, ws[n].subs[j];
      && t.b.synced && t.r.start == (if c.backfill == 0 then s else if s - c.backfill >= 1 then s - c.backfill else 1)
      && (forall x | x in t.r.noticedAt :: x >= t.r.start) && (forall x | x in t.b.holes :: x >= t.r.start)
    decreases n
  {
    hide IsRun, After, Enabled, Safe, Shaped, SyncsAt, OwnNumber;
    SeenSince(c, ws, steps, k, n, j);
    NothingBelow(c, ws, steps, n, j);
    StepSyncs(c, ws, steps, n - 1, j);
    if n == k + 1 {
      UnsyncedUntil(c, ws, steps, k, j);
      SyncIsOwn(c, ws, steps, k, j, ws[n].subs[j].r.start);
    } else {
      FirstDatagramDecides(c, ws, steps, k, n - 1, j);
    }
  }

  lemma NothingBelow(c: Setup, ws: seq<World>, steps: seq<Step>, n: nat, j: nat)
    requires IsRun(c, ws, steps) && n < |ws| && j < |c.joined|
    ensures |ws[n].subs| == |c.joined|
    ensures var t := ws[n].subs[j];
      (forall x | x in t.r.noticedAt :: x >= t.r.start) && (forall x | x in t.b.holes :: x >= t.r.start)
  {
    hide IsRun, LogShape, Faithful;
    BucketSafe(c, ws, steps, n, j);
  }
}
