// A receiving bucket together with the history of what happened to it, and
// what every step keeps, whatever the network and the repair server do.
module Tracking {
  import opened Bytes
  import opened Collections
  import opened Messages
  import opened RepairWire
  import opened Buckets

  datatype Ask = Ask(at: nat, sequences: seq<u64>)

  /** Why a number was written off. */
  datatype Reason = TimedOut(at: nat) | NoLongerHeld

  /** The first number wanted, the highest accepted by datagram (one less than
      the first while there is none), when each hole was noticed, every request
      sent, every write-off, what became of each number passed (in order, from
      the first), and how many messages datagrams brought. */
  datatype Record = Record(
    start: nat,
    hi: int,
    noticedAt: map<u64, nat>,
    asks: seq<Ask>,
    writtenOff: map<u64, Reason>,
    released: seq<Release>,
    byUdp: nat)

  datatype Tracked = Tracked(b: Bucket, r: Record)

  function NewTracked(id: u16, firstExpected: nat): Tracked {
    var b := NewBucket(id, firstExpected);
    Tracked(b, Record(b.next, b.next - 1, map[], [], map[], [], 0))
  }

  function Synced(t: Tracked, sequence: u64, backfill: nat): Tracked {
    if t.b.synced then t else
      var b := Sync(t.b, sequence, backfill);
      Tracked(b, t.r.(start := b.next, hi := b.next - 1))
  }

  function Larger(a: int, b: int): int {
    if a < b then b else a
  }

  /** The holes that are open in c but were not in b. */
  function NewHoles(b: Bucket, c: Bucket): set<u64> {
    set h | h in c.holes && h !in b.holes
  }

  function TAccept(t: Tracked, sequence: u64, m: OrderMessage, now: nat, backfill: nat): Tracked {
    var s := Synced(t, sequence, backfill);
    var c := Accept(t.b, sequence, m, now, backfill);
    if Duplicate(s.b, sequence) then Tracked(c, s.r)
    else
      Tracked(c, s.r.(hi := Larger(s.r.hi, sequence),
                      noticedAt := s.r.noticedAt + map h | h in NewHoles(s.b, c) :: now,
                      byUdp := s.r.byUdp + 1))
  }

  function TNak(t: Tracked, r: Repair, now: nat, timing: Timing, connects: bool, writes: bool): Tracked {
    var n := Nak(t.b, r, now, timing, connects, writes);
    Tracked(n.bucket,
            t.r.(writtenOff := t.r.writtenOff + map s | s in Expired(t.b, now, timing.giveup) :: TimedOut(now),
                 asks := if n.asked == [] then t.r.asks else t.r.asks + [Ask(now, n.asked)]))
  }

  function TFrame(t: Tracked, f: Frame): Tracked {
    Tracked(ApplyFrame(t.b, f),
            if f.payload.None?
                && f.sequence >= t.b.next then t.r.(writtenOff := t.r.writtenOff[f.sequence := NoLongerHeld]) else t.r)
  }

  function TRelease(t: Tracked): Tracked {
    Tracked(ReleaseAll(t.b).0, t.r.(released := t.r.released + ReleaseAll(t.b).1))
  }

  function TReleaseOne(t: Tracked): Tracked
    requires ReleaseOne(t.b).Some?
  {
    Tracked(ReleaseOne(t.b).value.0, t.r.(released := t.r.released + [ReleaseOne(t.b).value.1]))
  }

  /** Whatever releasing one message keeps, releasing all of them keeps. */
  lemma ReleaseStep(t: Tracked)
    requires ReleaseOne(t.b).Some?
    ensures TRelease(t) == TRelease(TReleaseOne(t))
    ensures |TReleaseOne(t).b.parked| + |TReleaseOne(t).b.gone| < |t.b.parked| + |t.b.gone|
  {
    ReleaseShrinks(t.b);
    var (c, r) := ReleaseOne(t.b).value;
    assert t.r.released + [r] + ReleaseAll(c).1 == t.r.released + ([r] + ReleaseAll(c).1);
  }

  lemma NoRelease(t: Tracked)
    requires ReleaseOne(t.b).None?
    ensures TRelease(t) == t
  {
    assert t.r.released + [] == t.r.released;
  }

  // ---- no forgotten gap ---------------------------------------------------------

  /** Every number from the release point to the highest accepted one is
      parked, written off or a hole; every hole is strictly below the highest
      accepted number, and its notice time is on record. */
  ghost predicate Covered(t: Tracked) {
    && (!t.b.synced ==> t.r.noticedAt == map[] && t.r.hi == t.b.next - 1)
    && (forall s: u64 | t.b.next <= s <= t.r.hi :: Known(t.b, s))
    && (forall h | h in t.b.holes :: h < t.r.hi && h in t.r.noticedAt && t.r.noticedAt[h] == t.b.holes[h].noticed)
    && (forall s | s in t.r.noticedAt :: t.r.start <= s < t.r.hi)
    && t.r.start <= t.b.next
  }

  /** The holes a datagram opens lie above everything accepted before. */
  lemma NewHolesAreNew(t: Tracked, sequence: u64, m: OrderMessage, now: nat, h: u64)
    requires Covered(t) && t.b.synced && !Duplicate(t.b, sequence)
    requires h in Accept(t.b, sequence, m, now, 0).holes && h !in t.b.holes
    ensures t.r.hi < h < sequence && h !in t.r.noticedAt
  {
    assert t.b.next <= h <= t.r.hi ==> Known(t.b, h);
  }

  lemma AcceptCovered(t: Tracked, sequence: u64, m: OrderMessage, now: nat, backfill: nat)
    requires Covered(t) && Orderly(t.b)
    ensures Covered(TAccept(t, sequence, m, now, backfill))
  {
    var s, u := Synced(t, sequence, backfill), TAccept(t, sequence, m, now, backfill);
    assert Covered(s);
    if Duplicate(s.b, sequence) {
      forall k: u64 | u.b.next <= k <= u.r.hi ensures Known(u.b, k) {
        assert Known(s.b, k);
      }
    } else {
      assert u.b == Accept(s.b, sequence, m, now, 0);
      ParkCovered(s, sequence, m, now, u);
    }
  }

  lemma ParkCovered(t: Tracked, sequence: u64, m: OrderMessage, now: nat, u: Tracked)
    requires Covered(t) && t.b.synced && !Duplicate(t.b, sequence)
    requires u == TAccept(t, sequence, m, now, 0)
    ensures Covered(u)
  {
    forall k: u64 | u.b.next <= k <= u.r.hi ensures Known(u.b, k) {
      assert k <= t.r.hi ==> Known(t.b, k);
    }
    forall h | h in u.b.holes
      ensures h < u.r.hi && h in u.r.noticedAt && u.r.noticedAt[h] == u.b.holes[h].noticed
    {
      if h in t.b.holes {
        assert h !in NewHoles(t.b, u.b);
      } else {
        NewHolesAreNew(t, sequence, m, now, h);
      }
    }
  }

  lemma NakCovered(t: Tracked, r: Repair, now: nat, timing: Timing, connects: bool, writes: bool)
    requires Covered(t) && Orderly(t.b)
    ensures Covered(TNak(t, r, now, timing, connects, writes))
  {
    var u := TNak(t, r, now, timing, connects, writes);
    forall k: u64 | u.b.next <= k <= u.r.hi ensures Known(u.b, k) {
      assert Known(t.b, k);
    }
  }

  lemma FrameCovered(t: Tracked, f: Frame)
    requires Covered(t) && Orderly(t.b)
    ensures Covered(TFrame(t, f))
  {
    var u := TFrame(t, f);
    forall k: u64 | u.b.next <= k <= u.r.hi ensures Known(u.b, k) {
      assert Known(t.b, k);
    }
  }

  lemma ReleaseOneCovered(t: Tracked)
    requires Covered(t) && ReleaseOne(t.b).Some? && t.b.synced
    ensures Covered(TReleaseOne(t)) && TReleaseOne(t).b.synced
  {
    var u := TReleaseOne(t);
    forall k: u64 | u.b.next <= k <= u.r.hi ensures Known(u.b, k) {
      assert Known(t.b, k);
    }
  }

  // ---- requests --------------------------------------------------------------------

  ghost predicate WellFormedAsk(a: Ask, noticedAt: map<u64, nat>) {
    && 0 < |a.sequences| <= MAX_REPAIR_BATCH
    && StrictlyAscending(a.sequences)
    && (forall s | s in a.sequences :: s in noticedAt && noticedAt[s] <= a.at)
    && a.at > 0
  }

  /** Requests name noticed holes in increasing order, and the requests naming
      one number are more than the repeat interval apart. */
  ghost predicate Spaced(t: Tracked, timing: Timing) {
    && (forall k | 0 <= k < |t.r.asks| :: WellFormedAsk(t.r.asks[k], t.r.noticedAt))
    && (forall k, s | 0 <= k < |t.r.asks| && s in t.r.asks[k].sequences && s in t.b.holes ::
        t.b.holes[s].asked >= t.r.asks[k].at)
    && (forall j, k, s | 0 <= j < k < |t.r.asks| && s in t.r.asks[j].sequences && s in t.r.asks[k].sequences ::
          t.r.asks[k].at - t.r.asks[j].at > timing.nakRepeat)
  }

  lemma AcceptSpaced(t: Tracked, sequence: u64, m: OrderMessage, now: nat, backfill: nat, timing: Timing)
    requires Covered(t) && Orderly(t.b) && Spaced(t, timing)
    ensures Spaced(TAccept(t, sequence, m, now, backfill), timing)
  {
    var s, u := Synced(t, sequence, backfill), TAccept(t, sequence, m, now, backfill);
    assert Covered(s) && Spaced(s, timing);
    if !Duplicate(s.b, sequence) {
      assert u.b == Accept(s.b, sequence, m, now, 0);
      forall h | h in u.b.holes && h !in s.b.holes ensures h !in s.r.noticedAt {
        NewHolesAreNew(s, sequence, m, now, h);
      }
      assert forall h | h in s.r.noticedAt :: h !in NewHoles(s.b, u.b);
      assert forall k | 0 <= k < |u.r.asks| :: WellFormedAsk(s.r.asks[k], s.r.noticedAt);
    }
  }

  /** One more request keeps the spacing if each number it names was not asked
      for within the repeat interval, and its holes are stamped. */
  lemma AskKeepsSpacing(t: Tracked, a: Ask, u: Tracked, timing: Timing)
    requires Spaced(t, timing) && WellFormedAsk(a, t.r.noticedAt)
    requires u.r.asks == t.r.asks + [a] && u.r.noticedAt == t.r.noticedAt
    requires forall j, s | 0 <= j < |t.r.asks| && s in t.r.asks[j].sequences && s in a.sequences ::
      a.at - t.r.asks[j].at > timing.nakRepeat
    requires forall s | s in u.b.holes ::
      s in t.b.holes && u.b.holes[s].asked == if s in a.sequences then a.at else t.b.holes[s].asked
    ensures Spaced(u, timing)
  {
    assert forall k | 0 <= k < |t.r.asks| :: u.r.asks[k] == t.r.asks[k];
    assert u.r.asks[|t.r.asks|] == a;
    forall k, s | 0 <= k < |u.r.asks| && s in u.r.asks[k].sequences && s in u.b.holes
      ensures u.b.holes[s].asked >= u.r.asks[k].at
    {
      if k < |t.r.asks| {
        assert s in t.r.asks[k].sequences;
      }
    }
  }

  lemma NakSpaced(t: Tracked, r: Repair, now: nat, timing: Timing, connects: bool, writes: bool)
    requires Covered(t) && Orderly(t.b) && StampedBy(t.b, now) && Spaced(t, timing)
    ensures Spaced(TNak(t, r, now, timing, connects, writes), timing)
  {
    var n, u := Nak(t.b, r, now, timing, connects, writes), TNak(t, r, now, timing, connects, writes);
    var e := Expire(t.b, now, timing.giveup);
    if n.asked != [] {
      assert n.asked == Batch(e, now, timing) && u.b == Asked(e, n.asked, now);
      BatchShape(e, now, timing);
      AskWellFormed(t, n.asked, now, timing);
      WasLongAgo(t, e, n.asked, now, timing);
      AskKeepsSpacing(t, Ask(now, n.asked), u, timing);
    }
  }

  /** Whatever is eligible again was last asked for long enough ago. */
  lemma WasLongAgo(t: Tracked, e: Bucket, batch: seq<u64>, now: nat, timing: Timing)
    requires Spaced(t, timing) && e == Expire(t.b, now, timing.giveup)
    requires forall s | s in batch :: Wanted(e.holes, s, now, timing)
    ensures forall j, s | 0 <= j < |t.r.asks| && s in t.r.asks[j].sequences && s in batch ::
      now - t.r.asks[j].at > timing.nakRepeat
  {
    forall j, s | 0 <= j < |t.r.asks| && s in t.r.asks[j].sequences && s in batch
      ensures now - t.r.asks[j].at > timing.nakRepeat
    {
      assert Wanted(e.holes, s, now, timing) && t.b.holes[s].asked >= t.r.asks[j].at;
      assert WellFormedAsk(t.r.asks[j], t.r.noticedAt);
    }
  }

  lemma AskWellFormed(t: Tracked, batch: seq<u64>, now: nat, timing: Timing)
    requires Covered(t) && StampedBy(t.b, now)
    requires 0 < |batch| <= MAX_REPAIR_BATCH && StrictlyAscending(batch)
    requires forall s | s in batch :: Wanted(Expire(t.b, now, timing.giveup).holes, s, now, timing)
    ensures WellFormedAsk(Ask(now, batch), t.r.noticedAt)
  {
    assert batch[0] in batch;
  }

  lemma FrameSpaced(t: Tracked, f: Frame, timing: Timing)
    requires Spaced(t, timing)
    ensures Spaced(TFrame(t, f), timing)
  {
    assert forall k | 0 <= k < |t.r.asks| :: WellFormedAsk(t.r.asks[k], t.r.noticedAt);
  }

  lemma ReleaseOneSpaced(t: Tracked, timing: Timing)
    requires Spaced(t, timing) && ReleaseOne(t.b).Some?
    ensures Spaced(TReleaseOne(t), timing)
  {
    assert forall k | 0 <= k < |t.r.asks| :: WellFormedAsk(t.r.asks[k], t.r.noticedAt);
  }

  // ---- write-offs --------------------------------------------------------------------

  ghost predicate Grounded(t: Tracked, s: u64, timing: Timing) {
    && s in t.r.writtenOff
    && (t.r.writtenOff[s].TimedOut? ==>
          s in t.r.noticedAt && t.r.writtenOff[s].at - t.r.noticedAt[s] > timing.giveup)
  }

  /** Everything written off, still pending or already passed, has a reason;
      a time-out is later than the notice by more than the give-up time. */
  ghost predicate Justified(t: Tracked, timing: Timing) {
    && (forall s | s in t.b.gone :: s in t.r.writtenOff)
    && (forall s | s in t.r.writtenOff :: Grounded(t, s, timing))
    && |t.r.released| == t.b.next - t.r.start
    && (forall k | 0 <= k < |t.r.released| && t.r.released[k].Lost? :: t.r.start + k in t.r.writtenOff)
  }

  /** New notices leave what was written off as justified as it was. */
  lemma NoticesJustified(t: Tracked, u: Tracked, timing: Timing)
    requires Justified(t, timing)
    requires u.b.gone == t.b.gone && u.b.next == t.b.next
    requires u.r == t.r.(hi := u.r.hi, noticedAt := u.r.noticedAt, byUdp := u.r.byUdp)
    requires forall s | s in t.r.noticedAt :: s in u.r.noticedAt && u.r.noticedAt[s] == t.r.noticedAt[s]
    ensures Justified(u, timing)
  {
    forall k | k in u.r.writtenOff ensures Grounded(u, k, timing) {
      assert Grounded(t, k, timing);
    }
  }

  lemma AcceptJustified(t: Tracked, sequence: u64, m: OrderMessage, now: nat, backfill: nat, timing: Timing)
    requires Covered(t) && Orderly(t.b) && Justified(t, timing)
    requires !t.b.synced ==> t.r.released == []
    ensures Justified(TAccept(t, sequence, m, now, backfill), timing)
  {
    var s, u := Synced(t, sequence, backfill), TAccept(t, sequence, m, now, backfill);
    assert Covered(s) && Justified(s, timing);
    hide Justified, Covered, Orderly, Known;
    if !Duplicate(s.b, sequence) {
      assert u.b == Accept(s.b, sequence, m, now, 0);
      forall h | h in NewHoles(s.b, u.b) ensures h !in s.r.noticedAt {
        NewHolesAreNew(s, sequence, m, now, h);
      }
    }
    NoticesJustified(s, u, timing);
  }

  lemma NakWritesOff(b: Bucket, r: Repair, now: nat, timing: Timing, connects: bool, writes: bool)
    ensures var n := Nak(b, r, now, timing, connects, writes).bucket;
      n.gone == b.gone + Expired(b, now, timing.giveup) && n.next == b.next
  {
    hide Batch, Expired;
  }

  lemma NakJustified(t: Tracked, r: Repair, now: nat, timing: Timing, connects: bool, writes: bool)
    requires Covered(t) && Justified(t, timing)
    ensures Justified(TNak(t, r, now, timing, connects, writes), timing)
  {
    hide Nak;
    var u := TNak(t, r, now, timing, connects, writes);
    NakWritesOff(t.b, r, now, timing, connects, writes);
    forall k | k in u.r.writtenOff ensures Grounded(u, k, timing) {
      assert k in t.r.writtenOff ==> Grounded(t, k, timing);
    }
  }

  lemma FrameJustified(t: Tracked, f: Frame, timing: Timing)
    requires Justified(t, timing)
    ensures Justified(TFrame(t, f), timing)
  {
    var u := TFrame(t, f);
    forall k | k in u.r.writtenOff ensures Grounded(u, k, timing) {
      assert k in t.r.writtenOff ==> Grounded(t, k, timing);
    }
  }

  lemma ReleaseOneJustified(t: Tracked, timing: Timing)
    requires Justified(t, timing) && ReleaseOne(t.b).Some? && t.r.start <= t.b.next
    ensures Justified(TReleaseOne(t), timing)
  {
    var u := TReleaseOne(t);
    forall k | k in u.r.writtenOff ensures Grounded(u, k, timing) {
      assert Grounded(t, k, timing);
    }
  }

  // ---- conservation --------------------------------------------------------------------

  function Count(rs: seq<Release>, what: Release -> bool): nat
    decreases |rs|
  {
    if rs == [] then 0 else Count(rs[..|rs| - 1], what) + (if what(rs[|rs| - 1]) then 1 else 0)
  }

  const IsDelivered := (r: Release) => r.Delivered?
  const IsLost := (r: Release) => r.Lost?

  lemma CountOne(rs: seq<Release>, r: Release, what: Release -> bool)
    ensures Count(rs + [r], what) == Count(rs, what) + (if what(r) then 1 else 0)
  {
    assert (rs + [r])[..|rs|] == rs;
  }

  /** Every number passed is accounted for once, and every message that was
      parked is delivered, still parked, or the end marker. */
  ghost predicate Balanced(t: Tracked) {
    && t.b.next - t.r.start == t.b.stats.delivered + t.b.stats.unrecoverable + (if t.b.done then 1 else 0)
    && t.b.stats.delivered == Count(t.r.released, IsDelivered)
    && t.b.stats.unrecoverable == Count(t.r.released, IsLost)
    && t.r.byUdp + t.b.stats.repaired == t.b.stats.delivered + |t.b.parked| + (if t.b.done then 1 else 0)
    && |t.r.released| == t.b.next - t.r.start
    && (forall k | 0 <= k < |t.r.released| :: t.r.released[k].Ended? <==> (t.b.done && k == |t.r.released| - 1))
    && (t.b.done ==> t.r.released != [])
    && t.b.stats.requests == |t.r.asks|
    && (!t.b.synced ==> t.r.released == [])
  }

  lemma AcceptBalanced(t: Tracked, sequence: u64, m: OrderMessage, now: nat, backfill: nat)
    requires Balanced(t)
    ensures Balanced(TAccept(t, sequence, m, now, backfill))
  {
  }

  lemma NakBalanced(t: Tracked, r: Repair, now: nat, timing: Timing, connects: bool, writes: bool)
    requires Balanced(t)
    ensures Balanced(TNak(t, r, now, timing, connects, writes))
  {
  }

  lemma FrameBalanced(t: Tracked, f: Frame)
    requires Balanced(t)
    ensures Balanced(TFrame(t, f))
  {
  }

  lemma ReleaseOneBalanced(t: Tracked)
    requires Balanced(t) && t.b.synced && ReleaseOne(t.b).Some?
    ensures Balanced(TReleaseOne(t))
  {
    var r := ReleaseOne(t.b).value.1;
    CountOne(t.r.released, r, IsDelivered);
    CountOne(t.r.released, r, IsLost);
    assert (t.b.parked - {t.b.next}).Keys == t.b.parked.Keys - {t.b.next};
  }

  // ---- all of it ------------------------------------------------------------------------

  /** What holds of a tracked bucket in every run, whatever is received. */
  ghost predicate Sane(t: Tracked, timing: Timing, clock: nat) {
    && Orderly(t.b) && StampedBy(t.b, clock)
    && Covered(t) && Spaced(t, timing) && Justified(t, timing) && Balanced(t)
  }

  lemma NewSane(id: u16, firstExpected: nat, timing: Timing)
    ensures Sane(NewTracked(id, firstExpected), timing, 0)
  {
  }

  lemma AcceptSane(t: Tracked, sequence: u64, m: OrderMessage, now: nat, backfill: nat, timing: Timing)
    requires Sane(t, timing, now)
    ensures Sane(TAccept(t, sequence, m, now, backfill), timing, now)
  {
    AcceptOrderly(t.b, sequence, m, now, backfill);
    AcceptCovered(t, sequence, m, now, backfill);
    AcceptSpaced(t, sequence, m, now, backfill, timing);
    AcceptJustified(t, sequence, m, now, backfill, timing);
    AcceptBalanced(t, sequence, m, now, backfill);
  }

  lemma NakSane(t: Tracked, r: Repair, now: nat, timing: Timing, connects: bool, writes: bool)
    requires Sane(t, timing, now)
    ensures Sane(TNak(t, r, now, timing, connects, writes), timing, now)
  {
    NakOrderly(t.b, r, now, timing, connects, writes);
    NakCovered(t, r, now, timing, connects, writes);
    NakSpaced(t, r, now, timing, connects, writes);
    NakJustified(t, r, now, timing, connects, writes);
    NakBalanced(t, r, now, timing, connects, writes);
  }

  lemma FrameSane(t: Tracked, f: Frame, timing: Timing, clock: nat)
    requires Sane(t, timing, clock)
    ensures Sane(TFrame(t, f), timing, clock)
  {
    FrameOrderly(t.b, f, clock);
    FrameCovered(t, f);
    FrameSpaced(t, f, timing);
    FrameJustified(t, f, timing);
    FrameBalanced(t, f);
  }

  /** A bucket that is not synced yet has nothing to release in an honest run;
      once it is, releasing keeps everything. */
  lemma ReleaseOneSane(t: Tracked, timing: Timing, clock: nat)
    requires Sane(t, timing, clock) && t.b.synced && ReleaseOne(t.b).Some?
    ensures Sane(TReleaseOne(t), timing, clock) && TReleaseOne(t).b.synced
  {
    ReleaseOneOrderly(t.b, clock);
    ReleaseOneCovered(t);
    ReleaseOneSpaced(t, timing);
    ReleaseOneJustified(t, timing);
    ReleaseOneBalanced(t);
  }
}
