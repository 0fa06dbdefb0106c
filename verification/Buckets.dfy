// One bucket as the receiving side sees it: what is waiting, what is missing,
// what was written off, and the steps that move messages between the three.
module Buckets {
  import opened Bytes
  import opened Collections
  import opened Messages
  import opened RepairWire

  /** When a missing number was noticed, and last asked for (0: never). */
  datatype Hole = Hole(noticed: nat, asked: nat)

  datatype Stats = Stats(delivered: nat, repaired: nat, unrecoverable: nat, duplicates: nat, requests: nat)

  const NO_STATS: Stats := Stats(0, 0, 0, 0, 0)

  datatype Bucket = Bucket(
    id: u16,
    synced: bool,
    done: bool,
    next: nat,
    parked: map<u64, OrderMessage>,
    gone: set<u64>,
    holes: map<u64, Hole>,
    stats: Stats)

  datatype Timing = Timing(nakDelay: nat, nakRepeat: nat, retry: nat, giveup: nat)

  function NewBucket(id: u16, firstExpected: nat): Bucket {
    Bucket(id, firstExpected > 0, false, if firstExpected > 0 then firstExpected else 1, map[], {}, map[], NO_STATS)
  }

  // ---- accepting a datagram ---------------------------------------------------

  /** Where a bucket that tuned in at `sequence` starts. */
  function StartAt(sequence: u64, backfill: nat): nat {
    if backfill == 0 then sequence else if sequence > backfill then sequence - backfill else 1
  }

  function Sync(b: Bucket, sequence: u64, backfill: nat): Bucket {
    if b.synced then b else b.(next := StartAt(sequence, backfill), synced := true)
  }

  predicate Known(b: Bucket, s: u64) {
    s in b.parked || s in b.holes || s in b.gone
  }

  predicate Duplicate(b: Bucket, sequence: u64) {
    sequence < b.next || sequence in b.parked
  }

  /** A datagram is parked; every number it skipped that is not accounted for
      becomes a hole noticed now. */
  function Accept(b0: Bucket, sequence: u64, m: OrderMessage, now: nat, backfill: nat): Bucket {
    var b := Sync(b0, sequence, backfill);
    if Duplicate(b, sequence) then b.(stats := b.stats.(duplicates := b.stats.duplicates + 1))
    else
      var found := map s: u64 | b.next <= s < sequence && !Known(b, s) :: Hole(now, 0);
      b.(holes := (b.holes + found) - {sequence}, parked := b.parked[sequence := m])
  }

  /** What a datagram does. The first one syncs the bucket: at its own number, or
      with a backfill that many numbers before it, but never before 1. One below
      the next number wanted, or parked already, is counted a duplicate and
      changes nothing else. Any other is parked under its number, and every
      number skipped that is not parked, written off or a hole becomes a hole
      noticed now and never asked for. */
  lemma AcceptExactly(b: Bucket, sequence: u64, m: OrderMessage, now: nat, backfill: nat)
    ensures var c := Accept(b, sequence, m, now, backfill);
      && c.synced && c.done == b.done && c.id == b.id && c.gone == b.gone
      && c.next == (if b.synced then b.next else if backfill == 0 then sequence
                    else if sequence > backfill then sequence - backfill else 1)
      && (if sequence < c.next || sequence in b.parked then
            && c.parked == b.parked && c.holes == b.holes
            && c.stats == b.stats.(duplicates := b.stats.duplicates + 1)
          else
            && c.parked == b.parked[sequence := m] && c.stats == b.stats && sequence !in c.holes
            && (forall s: u64 | s != sequence && s in b.holes :: s in c.holes && c.holes[s] == b.holes[s])
            && (forall s: u64 | s != sequence && s !in b.holes ::
                  s in c.holes <==> c.next <= s < sequence && s !in b.parked && s !in b.gone)
            && (forall s: u64 | s in c.holes && s !in b.holes :: c.holes[s] == Hole(now, 0)))
  {
  }

  // ---- giving up, asking --------------------------------------------------------

  /** Every hole that has been open longer than the give-up time. */
  function Expired(b: Bucket, now: nat, giveup: nat): set<u64> {
    set s | s in b.holes && now - b.holes[s].noticed > giveup
  }

  function Expire(b: Bucket, now: nat, giveup: nat): Bucket {
    var late := Expired(b, now, giveup);
    b.(gone := b.gone + late, holes := b.holes - late)
  }

  predicate Eligible(hole: Hole, now: nat, t: Timing) {
    || (hole.asked == 0 && now - hole.noticed > t.nakDelay)
    || (hole.asked != 0 && now - hole.asked > t.nakRepeat)
  }

  predicate Wanted(holes: map<u64, Hole>, s: u64, now: nat, t: Timing) {
    s in holes && Eligible(holes[s], now, t)
  }

  function EligibleHoles(b: Bucket, now: nat, t: Timing): set<u64> {
    set s | s in b.holes && Wanted(b.holes, s, now, t)
  }

  /** The numbers of a set in increasing order. */
  function Sequences(s: set<u64>): (q: seq<u64>)
    ensures q == Ascending(s)
  {
    var q := Ascending(s);
    assert forall i | 0 <= i < |q| :: q[i] in s;
    q
  }

  function FirstBatch(all: seq<u64>): (batch: seq<u64>)
    ensures |batch| <= MAX_REPAIR_BATCH && batch <= all
  {
    if |all| <= MAX_REPAIR_BATCH then all else all[..MAX_REPAIR_BATCH]
  }

  /** The lowest eligible holes, at most a full batch of them. */
  function Batch(b: Bucket, now: nat, t: Timing): (batch: seq<u64>)
    ensures |batch| <= MAX_REPAIR_BATCH
  {
    FirstBatch(Sequences(EligibleHoles(b, now, t)))
  }

  /** A batch is ascending, made of eligible holes, and leaves out an eligible
      hole only when it is full of lower ones. */
  lemma BatchShape(b: Bucket, now: nat, timing: Timing)
    ensures StrictlyAscending(Batch(b, now, timing))
    ensures forall s | s in Batch(b, now, timing) :: Wanted(b.holes, s, now, timing)
    ensures forall s | Wanted(b.holes, s, now, timing) && s !in Batch(b, now, timing) ::
      |Batch(b, now, timing)| == MAX_REPAIR_BATCH && forall k | 0 <= k < MAX_REPAIR_BATCH ::
          Batch(b, now, timing)[k] < s
  {
    var all, batch := Sequences(EligibleHoles(b, now, timing)), Batch(b, now, timing);
    forall s | s in batch ensures Wanted(b.holes, s, now, timing) {
      assert s in all && s in EligibleHoles(b, now, timing);
    }
    forall s | Wanted(b.holes, s, now, timing) && s !in batch
      ensures |batch| == MAX_REPAIR_BATCH && forall k | 0 <= k < MAX_REPAIR_BATCH :: batch[k] < s
    {
      assert s in EligibleHoles(b, now, timing) && s in all;
      var p :| 0 <= p < |all| && all[p] == s;
      assert p >= |batch|;
    }
  }

  /** When a hole may be asked for: the first time once more than the request
      delay has passed since it was noticed, and again once more than the repeat
      interval has passed since it was last asked for. A batch takes such holes
      only, in increasing order, and leaves one out only when it is full of lower
      ones. */
  lemma BatchExactly(b: Bucket, now: nat, t: Timing)
    ensures var batch := Batch(b, now, t);
      && (forall k, l | 0 <= k < l < |batch| :: batch[k] < batch[l])
      && (forall s | s in batch ::
            s in b.holes && (if b.holes[s].asked == 0 then now - b.holes[s].noticed > t.nakDelay
                             else now - b.holes[s].asked > t.nakRepeat))
      && (forall s | s in b.holes && s !in batch
            && (if b.holes[s].asked == 0 then now - b.holes[s].noticed > t.nakDelay
                else now - b.holes[s].asked > t.nakRepeat) ::
            |batch| == 512 && forall k | 0 <= k < 512 :: batch[k] < s)
  {
    BatchShape(b, now, t);
    hide Batch;
    forall s | s in Batch(b, now, t) ensures s in b.holes && Eligible(b.holes[s], now, t) {
      assert Wanted(b.holes, s, now, t);
    }
    forall s | s in b.holes && Eligible(b.holes[s], now, t) ensures Wanted(b.holes, s, now, t) {
    }
  }

  function Asked(b: Bucket, batch: seq<u64>, now: nat): Bucket {
    b.(holes := map s | s in b.holes :: if s in batch then b.holes[s].(asked := now) else b.holes[s],
       stats := b.stats.(requests := b.stats.requests + 1))
  }

  /** The repair connection: whether it is up, the bytes of an unfinished
      frame, and the time before which no connect is tried. */
  datatype Repair = Repair(open: bool, held: seq<byte>, blockedUntil: nat)

  datatype NakResult = NakResult(bucket: Bucket, repair: Repair, asked: seq<u64>)

  /** Asking for a batch: connect if need be, write, and stamp the holes only
      once the bytes are away. `connects` and `writes` say whether the network
      lets a connect and a write succeed. */
  function Ask(b: Bucket, r: Repair, batch: seq<u64>, now: nat, t: Timing, connects: bool, writes: bool): NakResult {
    if !r.open && !connects then NakResult(b, r.(blockedUntil := now + t.retry), [])
    else if !writes then NakResult(b, Repair(false, [], now + t.retry), [])
    else NakResult(Asked(b, batch, now), r.(open := true), batch)
  }

  /** One tick: expire, then ask for a batch unless backed off. */
  function Nak(b: Bucket, r: Repair, now: nat, t: Timing, connects: bool, writes: bool): NakResult {
    var e := Expire(b, now, t.giveup);
    var batch := Batch(e, now, t);
    if batch == [] || (!r.open && now < r.blockedUntil) then NakResult(e, r, [])
    else Ask(e, r, batch, now, t, connects, writes)
  }

  /** What a tick does to the holes: those open longer than the give-up time are
      written off; the others stay, stamped with this moment exactly if they were
      asked for now, and those were due. */
  lemma NakOnHoles(b: Bucket, r: Repair, now: nat, t: Timing, connects: bool, writes: bool)
    ensures var n := Nak(b, r, now, t, connects, writes);
      && (forall s: u64 :: s in n.bucket.holes <==> s in b.holes && now - b.holes[s].noticed <= t.giveup)
      && (forall s: u64 :: s in n.bucket.gone <==> s in b.gone || (s in b.holes && now - b.holes[s].noticed > t.giveup))
      && (forall s | s in n.bucket.holes ::
            n.bucket.holes[s] == b.holes[s].(asked := if s in n.asked then now else b.holes[s].asked))
      && (forall s | s in n.asked ::
            s in n.bucket.holes && (if b.holes[s].asked == 0 then now - b.holes[s].noticed > t.nakDelay
                                    else now - b.holes[s].asked > t.nakRepeat))
  {
    hide Batch, Expire;
    ExpireExactly(b, now, t.giveup);
    BatchExactly(Expire(b, now, t.giveup), now, t);
  }

  lemma ExpireExactly(b: Bucket, now: nat, giveup: nat)
    ensures var e := Expire(b, now, giveup);
      && (forall s: u64 :: s in e.holes <==> s in b.holes && now - b.holes[s].noticed <= giveup)
      && (forall s | s in e.holes :: e.holes[s] == b.holes[s])
      && (forall s: u64 :: s in e.gone <==> s in b.gone || (s in b.holes && now - b.holes[s].noticed > giveup))
      && e == b.(holes := e.holes, gone := e.gone)
  {
  }

  /** A hole that is still live may be asked for now. */
  predicate DueAt(b: Bucket, s: u64, now: nat, t: Timing) {
    && s in b.holes && now - b.holes[s].noticed <= t.giveup
    && (if b.holes[s].asked == 0 then now - b.holes[s].noticed > t.nakDelay
        else now - b.holes[s].asked > t.nakRepeat)
  }

  /** What a tick does to the connection: nothing if nothing is due or a connect
      is held back; after a failed connect or write, which closes it, no connect
      is tried before the retry time has passed; otherwise it is up and the
      request is away. */
  lemma NakOnConnection(b: Bucket, r: Repair, now: nat, t: Timing, connects: bool, writes: bool)
    ensures var n := Nak(b, r, now, t, connects, writes);
      if (forall s: u64 :: !DueAt(b, s, now, t)) || (!r.open && now < r.blockedUntil) then
        n.asked == [] && n.repair == r
      else if !r.open && !connects then n.asked == [] && n.repair == r.(blockedUntil := now + t.retry)
      else if !writes then n.asked == [] && n.repair == Repair(false, [], now + t.retry)
      else n.asked != [] && n.repair == r.(open := true)
  {
    var e := Expire(b, now, t.giveup);
    BatchExactly(e, now, t);
    var batch := Batch(e, now, t);
    hide Batch, Asked;
    assert forall s: u64 :: DueAt(b, s, now, t) ==> s in e.holes && e.holes[s] == b.holes[s];
    if batch != [] {
      assert batch[0] in batch && DueAt(b, batch[0], now, t);
    }
  }

  /** The remainder of the bucket stays as it was, but that a request sent is
      counted. */
  lemma NakOnCounters(b: Bucket, r: Repair, now: nat, t: Timing, connects: bool, writes: bool)
    ensures var n := Nak(b, r, now, t, connects, writes);
      && n.bucket == b.(holes := n.bucket.holes, gone := n.bucket.gone, stats := n.bucket.stats)
      && n.bucket.stats == b.stats.(requests := b.stats.requests + if n.asked == [] then 0 else 1)
  {
    hide Batch;
    ExpireExactly(b, now, t.giveup);
    hide Expire;
  }

  // ---- repair frames --------------------------------------------------------------

  function ApplyFrame(b: Bucket, f: Frame): Bucket {
    var c := b.(holes := b.holes - {f.sequence});
    match f.payload
    case None => if f.sequence >= b.next then c.(gone := b.gone + {f.sequence}) else c
    case Some(p) =>
      if f.sequence >= b.next && f.sequence !in b.parked then
        c.(parked := b.parked[f.sequence := Decode(p)], stats := b.stats.(repaired := b.stats.repaired + 1))
      else c
  }

  /** What a repair frame does: its number stops being a hole; below the next
      number wanted nothing else changes; otherwise "gone" writes the number off,
      and a message is parked, and counted repaired, unless one is parked there. */
  lemma FrameExactly(b: Bucket, f: Frame)
    ensures var c, s := ApplyFrame(b, f), f.sequence;
      && c.holes == b.holes - {s} && c.next == b.next && c.done == b.done && c.synced == b.synced && c.id == b.id
      && (f.payload.None? ==>
            c.parked == b.parked && c.stats == b.stats && c.gone == if s >= b.next then b.gone + {s} else b.gone)
      && (f.payload.Some? ==> c.gone == b.gone && (if s >= b.next && s !in b.parked then
            c.parked == b.parked[s := Decode(f.payload.value)] && c.stats == b.stats.(repaired := b.stats.repaired + 1)
          else c.parked == b.parked && c.stats == b.stats))
  {
  }

  /** The first bucket with that id. */
  function Find(buckets: seq<Bucket>, id: u16): (i: Option<nat>)
    ensures i.Some? ==> i.value < |buckets| && buckets[i.value].id == id
    ensures i.None? <==> forall k | 0 <= k < |buckets| :: buckets[k].id != id
    ensures i.Some? ==> forall k | 0 <= k < i.value :: buckets[k].id != id
  {
    if buckets == [] then None
    else if buckets[0].id == id then Some(0)
    else match Find(buckets[1..], id) case None => None case Some(k) => Some(k + 1)
  }

  function ApplyTo(buckets: seq<Bucket>, f: Frame): (r: seq<Bucket>)
    ensures |r| == |buckets|
  {
    match Find(buckets, f.bucket)
    case None => buckets
    case Some(i) => buckets[i := ApplyFrame(buckets[i], f)]
  }

  function ApplyFrames(buckets: seq<Bucket>, fs: seq<Frame>): (r: seq<Bucket>)
    ensures |r| == |buckets|
    decreases |fs|
  {
    if fs == [] then buckets else ApplyFrames(ApplyTo(buckets, fs[0]), fs[1..])
  }

  // ---- releasing in order ---------------------------------------------------------

  /** What becomes of one sequence number when the bucket moves past it. */
  datatype Release = Delivered(message: OrderMessage) | Lost | Ended

  function ReleaseOne(b: Bucket): Option<(Bucket, Release)> {
    if b.done then None
    else if b.next in b.parked then
      var m := b.parked[b.next];
      var c := b.(parked := b.parked - {b.next}, next := b.next + 1);
      if m.kind == END then Some((c.(done := true), Ended))
      else Some((c.(stats := b.stats.(delivered := b.stats.delivered + 1)), Delivered(m)))
    else if b.next in b.gone then
      Some((b.(gone := b.gone - {b.next}, next := b.next + 1,
               stats := b.stats.(unrecoverable := b.stats.unrecoverable + 1)), Lost))
    else None
  }

  lemma ReleaseShrinks(b: Bucket)
    requires ReleaseOne(b).Some?
    ensures var c := ReleaseOne(b).value.0; |c.parked| + |c.gone| < |b.parked| + |b.gone|
  {
    if b.next in b.parked {
      assert (b.parked - {b.next}).Keys == b.parked.Keys - {b.next};
    } else {
      assert b.next in b.gone;
    }
  }

  /** Everything contiguous goes out at once. */
  function ReleaseAll(b: Bucket): (Bucket, seq<Release>)
    decreases |b.parked| + |b.gone|
  {
    match ReleaseOne(b)
    case None => (b, [])
    case Some((c, r)) =>
      ReleaseShrinks(b);
      var (d, rs) := ReleaseAll(c);
      (d, [r] + rs)
  }

  /** One release: the next number wanted goes out as its parked message or, if
      there is none, as lost if it was written off; the end marker finishes. */
  lemma ReleaseOneExactly(b: Bucket)
    ensures ReleaseOne(b).None? <==> b.done || (b.next !in b.parked && b.next !in b.gone)
    ensures ReleaseOne(b).Some? ==>
      var (c, r) := ReleaseOne(b).value;
      && c.next == b.next + 1 && c.holes == b.holes && c.synced == b.synced && c.id == b.id
      && c.parked == b.parked - {b.next} && (c.done <==> r.Ended?)
      && c.stats == b.stats.(delivered := b.stats.delivered + if r.Delivered? then 1 else 0,
                             unrecoverable := b.stats.unrecoverable + if r.Lost? then 1 else 0)
      && (forall s: u64 :: s in c.gone <==> s in b.gone && (s != b.next || s in b.parked))
      && (if b.next in b.parked then r == if b.parked[b.next].kind == 0x45 then Ended else Delivered(b.parked[b.next])
          else r == Lost)
  {
  }

  lemma ReleaseFirst(b: Bucket)
    ensures if ReleaseOne(b).None? then ReleaseAll(b) == (b, []) else
      var (c, r) := ReleaseOne(b).value;
      && |c.parked| + |c.gone| < |b.parked| + |b.gone|
      && ReleaseAll(b) == (ReleaseAll(c).0, [r] + ReleaseAll(c).1)
  {
    if ReleaseOne(b).Some? {
      ReleaseShrinks(b);
    }
  }

  /** Where a delivery stops: behind the end marker, which finishes the bucket,
      or before the first number that is neither parked nor written off. */
  lemma {:induction false} DeliveryStops(b: Bucket)
    ensures var (c, rs) := ReleaseAll(b);
      && c.next == b.next + |rs| && c.holes == b.holes && c.synced == b.synced && c.id == b.id
      && (c.done || (c.next !in c.parked && c.next !in c.gone))
      && (c.done <==> b.done || (rs != [] && rs[|rs| - 1].Ended?))
      && (b.done ==> rs == []) && forall k | 0 <= k < |rs| - 1 :: !rs[k].Ended?
    decreases |b.parked| + |b.gone|
  {
    hide ReleaseAll, ReleaseOne;
    ReleaseOneExactly(b);
    ReleaseFirst(b);
    if ReleaseOne(b).Some? {
      DeliveryStops(ReleaseOne(b).value.0);
    }
  }

  /** What becomes of one number when it goes out. */
  ghost predicate GoesOut(b: Bucket, s: nat, r: Release) {
    if s in b.parked then r == if b.parked[s].kind == 0x45 then Ended else Delivered(b.parked[s])
    else s in b.gone && r == Lost
  }

  lemma FirstGoesOut(b: Bucket)
    requires ReleaseOne(b).Some?
    ensures GoesOut(b, b.next, ReleaseOne(b).value.1)
  {
  }

  lemma LaterGoesOut(b: Bucket, s: nat, r: Release)
    requires ReleaseOne(b).Some? && s > b.next
    ensures GoesOut(ReleaseOne(b).value.0, s, r) <==> GoesOut(b, s, r)
  {
  }

  /** What a delivery hands out, number after number; what it does not reach
      stays parked. */
  lemma {:induction false} DeliveryExactly(b: Bucket)
    ensures var (c, rs) := ReleaseAll(b);
      && c.next == b.next + |rs|
      && (forall k | 0 <= k < |rs| :: GoesOut(b, b.next + k, rs[k]))
      && (forall s: u64 :: s in c.parked <==> s in b.parked && (s < b.next || c.next <= s))
      && (forall s: u64 :: s in b.gone && (s < b.next || c.next <= s) ==> s in c.gone)
    decreases |b.parked| + |b.gone|
  {
    hide ReleaseAll, ReleaseOne, GoesOut;
    ReleaseOneExactly(b);
    ReleaseFirst(b);
    if ReleaseOne(b).Some? {
      var (c, r) := ReleaseOne(b).value;
      var rs := ReleaseAll(c).1;
      DeliveryExactly(c);
      FirstGoesOut(b);
      forall k | 0 <= k < 1 + |rs| ensures GoesOut(b, b.next + k, ([r] + rs)[k]) {
        if k > 0 {
          LaterGoesOut(b, b.next + k, rs[k - 1]);
        }
      }
    }
  }

  /** The messages among the releases: what the callback is handed. */
  function Handed(rs: seq<Release>): seq<OrderMessage>
    decreases |rs|
  {
    if rs == [] then []
    else Handed(rs[..|rs| - 1]) + (if rs[|rs| - 1].Delivered? then [rs[|rs| - 1].message] else [])
  }

  // ---- what every step keeps --------------------------------------------------------

  /** Everything between the release point and a hole is accounted for. */
  ghost predicate FilledBelowHoles(b: Bucket) {
    forall h, s: u64 | h in b.holes && b.next <= s < h :: Known(b, s)
  }

  /** Later holes were not noticed earlier. */
  ghost predicate NoticedInOrder(b: Bucket) {
    forall g, h | g in b.holes && h in b.holes && g <= h :: b.holes[g].noticed <= b.holes[h].noticed
  }

  ghost predicate HolesApart(b: Bucket) {
    forall h | h in b.holes :: b.next <= h && h !in b.parked && h !in b.gone
  }

  ghost predicate StampedBy(b: Bucket, clock: nat) {
    forall h | h in b.holes :: b.holes[h].noticed <= clock && b.holes[h].asked <= clock
  }

  /** What holds of a bucket whatever arrives, honest or not. */
  ghost predicate Orderly(b: Bucket) {
    && (!b.synced ==> b.holes == map[])
    && HolesApart(b)
    && FilledBelowHoles(b)
    && NoticedInOrder(b)
  }

  /** The holes a datagram opens lie above every hole there was. */
  lemma NewHolesAbove(b: Bucket, s: u64, h: u64)
    requires Orderly(b) && h in b.holes && b.next <= s && !Known(b, s)
    ensures h < s
  {
    assert s == h ==> Known(b, s);
  }

  lemma ParkOrderly(b: Bucket, sequence: u64, m: OrderMessage, now: nat, c: Bucket)
    requires Orderly(b) && StampedBy(b, now) && b.synced && !Duplicate(b, sequence)
    requires c == Accept(b, sequence, m, now, 0)
    ensures Orderly(c) && StampedBy(c, now)
  {
    forall h, k: u64 | h in c.holes && c.next <= k < h ensures Known(c, k) {
      assert h in b.holes ==> Known(b, k);
      assert h !in b.holes ==> h < sequence;
    }
    forall g, h | g in c.holes && h in c.holes && g <= h ensures c.holes[g].noticed <= c.holes[h].noticed {
      if h in b.holes && g !in b.holes {
        NewHolesAbove(b, g, h);
      }
    }
  }

  lemma AcceptOrderly(b: Bucket, sequence: u64, m: OrderMessage, now: nat, backfill: nat)
    requires Orderly(b) && StampedBy(b, now)
    ensures Orderly(Accept(b, sequence, m, now, backfill)) && StampedBy(Accept(b, sequence, m, now, backfill), now)
  {
    var s := Sync(b, sequence, backfill);
    assert Orderly(s) && StampedBy(s, now);
    var c := Accept(b, sequence, m, now, backfill);
    if Duplicate(s, sequence) {
      forall h, k: u64 | h in c.holes && c.next <= k < h ensures Known(c, k) {
        assert Known(s, k);
      }
    } else {
      assert c == Accept(s, sequence, m, now, 0);
      ParkOrderly(s, sequence, m, now, c);
    }
  }

  lemma ExpireOrderly(b: Bucket, now: nat, giveup: nat)
    requires Orderly(b) && StampedBy(b, now)
    ensures Orderly(Expire(b, now, giveup)) && StampedBy(Expire(b, now, giveup), now)
  {
    var c := Expire(b, now, giveup);
    forall h, k: u64 | h in c.holes && c.next <= k < h ensures Known(c, k) {
      assert Known(b, k);
    }
  }

  lemma AskedOrderly(b: Bucket, batch: seq<u64>, now: nat)
    requires Orderly(b) && StampedBy(b, now)
    ensures Orderly(Asked(b, batch, now)) && StampedBy(Asked(b, batch, now), now)
  {
    var c := Asked(b, batch, now);
    forall h, k: u64 | h in c.holes && c.next <= k < h ensures Known(c, k) {
      assert Known(b, k);
    }
  }

  lemma NakOrderly(b: Bucket, r: Repair, now: nat, t: Timing, connects: bool, writes: bool)
    requires Orderly(b) && StampedBy(b, now)
    ensures Orderly(Nak(b, r, now, t, connects, writes).bucket)
    ensures StampedBy(Nak(b, r, now, t, connects, writes).bucket, now)
  {
    ExpireOrderly(b, now, t.giveup);
    var e := Expire(b, now, t.giveup);
    AskedOrderly(e, Batch(e, now, t), now);
  }

  lemma FrameFills(b: Bucket, f: Frame)
    requires FilledBelowHoles(b)
    ensures FilledBelowHoles(ApplyFrame(b, f))
  {
    var c := ApplyFrame(b, f);
    forall h, k: u64 | h in c.holes && c.next <= k < h ensures Known(c, k) {
      assert Known(b, k);
    }
  }

  lemma FrameOrderly(b: Bucket, f: Frame, clock: nat)
    requires Orderly(b) && StampedBy(b, clock)
    ensures Orderly(ApplyFrame(b, f)) && StampedBy(ApplyFrame(b, f), clock)
  {
    hide FilledBelowHoles, Known;
    FrameFills(b, f);
  }

  lemma ReleaseOneOrderly(b: Bucket, clock: nat)
    requires Orderly(b) && StampedBy(b, clock) && ReleaseOne(b).Some?
    ensures Orderly(ReleaseOne(b).value.0) && StampedBy(ReleaseOne(b).value.0, clock)
  {
    var c := ReleaseOne(b).value.0;
    forall h, k: u64 | h in c.holes && c.next <= k < h ensures Known(c, k) {
      assert Known(b, k);
    }
  }

  lemma {:induction false} ReleaseAllOrderly(b: Bucket, clock: nat)
    requires Orderly(b) && StampedBy(b, clock)
    ensures Orderly(ReleaseAll(b).0) && StampedBy(ReleaseAll(b).0, clock)
    ensures ReleaseOne(ReleaseAll(b).0).None?
    decreases |b.parked| + |b.gone|
  {
    if ReleaseOne(b).Some? {
      ReleaseOneOrderly(b, clock);
      ReleaseShrinks(b);
      ReleaseAllOrderly(ReleaseOne(b).value.0, clock);
    }
  }

  // ---- expiry: the fast scan and the full one -----------------------------------------

  /** The holes the fast scan has still to look at form the top of the map, so
      stopping at the first live one misses none that is late. */
  lemma LateHolesFirst(b: Bucket, now: nat, giveup: nat)
    requires NoticedInOrder(b) && b.holes != map[]
    requires now - b.holes[MinOf(b.holes.Keys)].noticed <= giveup
    ensures Expired(b, now, giveup) == {}
  {
  }

  // ---- bounded blocking -------------------------------------------------------------

  /** No hole is older than the give-up time, nothing is left that could go out,
      and a bucket that is not done and has a hole waits for one. */
  ghost predicate Unstuck(b: Bucket, now: nat, giveup: nat) {
    && (forall h | h in b.holes :: now - b.holes[h].noticed <= giveup)
    && (b.done || (b.next !in b.parked && b.next !in b.gone && (b.holes == map[] || b.next in b.holes)))
  }

  lemma {:induction false} ReleaseKeepsHoles(b: Bucket)
    ensures ReleaseAll(b).0.holes == b.holes
    decreases |b.parked| + |b.gone|
  {
    if ReleaseOne(b).Some? {
      ReleaseShrinks(b);
      ReleaseKeepsHoles(ReleaseOne(b).value.0);
    }
  }

  /** After a tick at time `now` and a delivery, whatever the repair server
      does, no hole is older than the give-up time, and the bucket is done or
      handed on all it could: then it has no hole, or waits for one. */
  lemma NakThenDeliverUnstuck(b: Bucket, r: Repair, now: nat, t: Timing, connects: bool, writes: bool)
    requires Orderly(b) && StampedBy(b, now)
    ensures Unstuck(ReleaseAll(Nak(b, r, now, t, connects, writes).bucket).0, now, t.giveup)
  {
    var n := Nak(b, r, now, t, connects, writes).bucket;
    NakOrderly(b, r, now, t, connects, writes);
    NakLeavesLive(b, r, now, t, connects, writes);
    ReleaseAllOrderly(n, now);
    ReleaseKeepsHoles(n);
    DeliveryStops(n);
    StopsAtHole(ReleaseAll(n).0);
  }

  lemma NakLeavesLive(b: Bucket, r: Repair, now: nat, t: Timing, connects: bool, writes: bool)
    ensures var n := Nak(b, r, now, t, connects, writes).bucket;
      forall h | h in n.holes :: now - n.holes[h].noticed <= t.giveup
  {
  }

  /** A bucket with nothing to release that still has a hole waits for one. */
  lemma StopsAtHole(c: Bucket)
    requires Orderly(c) && ReleaseOne(c).None?
    ensures c.done || c.holes == map[] || c.next in c.holes
  {
    if c.holes != map[] {
      var h: u64 := MinOf(c.holes.Keys);
      assert h in c.holes && c.next <= h;
      assert c.next < h ==> Known(c, c.next);
    }
  }
}
