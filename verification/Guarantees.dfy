// What the protocol promises in every run with loss, duplication, reordering,
// late arrivals and reconnects, for every joined bucket at every moment.
module Guarantees {
  import opened Bytes
  import opened Collections
  import opened Messages
  import opened RepairWire
  import opened Books
  import opened Buckets
  import opened Subscribers
  import opened Publishers
  import opened Tracking
  import opened Protocol
  import opened Safety
  import opened Publication

  // ---- what the callback was handed -------------------------------------------------

  /** The messages numbered from..upTo-1 of a log, but for those lost and the
      end marker. */
  function Survivors(log: seq<OrderMessage>, from: nat, upTo: nat, lost: set<nat>): seq<OrderMessage>
    requires 1 <= from && upTo <= |log| + 1
    decreases upTo
  {
    if upTo <= from then [] else
      var m := log[upTo - 2];
      Survivors(log, from, upTo - 1, lost) + (if upTo - 1 in lost || m.kind == END then [] else [m])
  }

  function LostNumbers(start: nat, rs: seq<Release>): set<nat>
    decreases |rs|
  {
    if rs == [] then {} else
      LostNumbers(start, rs[..|rs| - 1]) + (if rs[|rs| - 1].Lost? then {start + |rs| - 1} else {})
  }

  lemma {:induction false} LostNumbersExact(start: nat, rs: seq<Release>)
    ensures forall s: nat :: s in LostNumbers(start, rs) <==> start <= s < start + |rs| && rs[s - start].Lost?
    ensures |LostNumbers(start, rs)| == Count(rs, IsLost)
    decreases |rs|
  {
    if rs != [] {
      LostNumbersExact(start, rs[..|rs| - 1]);
    }
  }

  lemma {:induction false} HandedCount(rs: seq<Release>)
    ensures |Handed(rs)| == Count(rs, IsDelivered)
    decreases |rs|
  {
    if rs != [] {
      HandedCount(rs[..|rs| - 1]);
    }
  }

  /** Losing more numbers beyond the end changes nothing. */
  lemma {:induction false} SurvivorsLocal(log: seq<OrderMessage>, from: nat, upTo: nat, p: set<nat>, q: set<nat>)
    requires 1 <= from && upTo <= |log| + 1
    requires forall s | from <= s < upTo :: s in p <==> s in q
    ensures Survivors(log, from, upTo, p) == Survivors(log, from, upTo, q)
    decreases upTo
  {
    if upTo > from {
      SurvivorsLocal(log, from, upTo - 1, p, q);
    }
  }

  lemma LostAmong(start: nat, rs: seq<Release>, s: nat)
    requires rs != [] && start <= s < start + |rs| - 1
    ensures s in LostNumbers(start, rs) <==> s in LostNumbers(start, rs[..|rs| - 1])
    ensures start + |rs| - 1 in LostNumbers(start, rs) <==> rs[|rs| - 1].Lost?
  {
    LostNumbersExact(start, rs[..|rs| - 1]);
    LostNumbersExact(start, rs);
  }

  /** The last number passed is handed on just when it survives. */
  lemma LastSurvivor(log: seq<OrderMessage>, start: nat, rs: seq<Release>)
    requires 1 <= start && rs != [] && start + |rs| <= |log| + 1
    requires PassedTruly(rs[|rs| - 1], log, start + |rs| - 1)
    ensures var upTo, r := start + |rs|, rs[|rs| - 1];
      (if r.Delivered? then [r.message] else [])
      == (if upTo - 1 in LostNumbers(start, rs) || log[upTo - 2].kind == END then [] else [log[upTo - 2]])
  {
    LostNumbersExact(start, rs);
    hide LostNumbers;
  }

  lemma {:induction false} HandedSurvivors(log: seq<OrderMessage>, start: nat, rs: seq<Release>)
    requires 1 <= start && start + |rs| <= |log| + 1
    requires forall k | 0 <= k < |rs| :: PassedTruly(rs[k], log, start + k)
    ensures Handed(rs) == Survivors(log, start, start + |rs|, LostNumbers(start, rs))
    decreases |rs|
  {
    hide LostNumbers, PassedTruly;
    if rs != [] {
      var front, last := rs[..|rs| - 1], |rs| - 1;
      forall k | 0 <= k < |front| ensures PassedTruly(front[k], log, start + k) {
        assert PassedTruly(rs[k], log, start + k);
      }
      HandedSurvivors(log, start, front);
      assert PassedTruly(rs[last], log, start + last);
      LastSurvivor(log, start, rs);
      forall s | start <= s < start + last ensures s in LostNumbers(start, front) <==> s in LostNumbers(start, rs) {
        LostAmong(start, rs, s);
      }
      SurvivorsLocal(log, start, start + last, LostNumbers(start, front), LostNumbers(start, rs));
    }
  }

  lemma {:induction false} HandedAppend(p: seq<Release>, q: seq<Release>)
    ensures Handed(p + q) == Handed(p) + Handed(q)
    decreases |q|
  {
    if q == [] {
      assert p + q == p;
    } else {
      assert (p + q)[..|p + q| - 1] == p + q[..|q| - 1];
      HandedAppend(p, q[..|q| - 1]);
    }
  }

  /** Everything the callback of bucket j was handed in the first n steps. */
  ghost function CallbackLog(c: Setup, ws: seq<World>, steps: seq<Step>, n: nat, j: nat): seq<OrderMessage>
    requires IsRun(c, ws, steps) && n < |ws| && j < |c.joined|
    decreases n
  {
    if n == 0 then [] else
      CallbackLog(c, ws, steps, n - 1, j)
      + (if steps[n - 1] == Deliver(j) then Handed(ReleaseAll(ws[n - 1].subs[j].b).1) else [])
  }

  lemma {:induction false} ApplyAllKeepsReleased(subs: seq<Tracked>, fs: seq<Frame>, j: nat)
    requires j < |subs|
    ensures ApplyAll(subs, fs)[j].r.released == subs[j].r.released
    ensures ApplyAll(subs, fs)[j].r.noticedAt == subs[j].r.noticedAt
    ensures forall h | h in ApplyAll(subs, fs)[j].b.holes :: h in subs[j].b.holes
    decreases |fs|
  {
    if fs != [] {
      ApplyAllKeepsReleased(ApplyOne(subs, fs[0]), fs[1..], j);
    }
  }

  /** What a step makes of bucket j. */
  function BucketAfter(c: Setup, w: World, step: Step, j: nat): Tracked
    requires j < |w.subs| && (step.Read? ==> step.count <= |w.down|)
  {
    var t := w.subs[j];
    match step
    case Receive(k, d) => if k == j then TReceive(t, d, w.clock, c.backfill) else t
    case Poll(k, connects, writes) => if k == j then TNak(t, w.repair, w.clock, c.timing, connects, writes) else t
    case Read(count) => ApplyAll(w.subs, ParseFrames(w.repair.held + w.down[..count]).frames)[j]
    case Deliver(k) => if k == j then TRelease(t) else t
    case _ => t
  }

  lemma StepOnBucket(c: Setup, w: World, step: Step, j: nat)
    requires Shaped(c, w) && Enabled(c, w, step) && j < |w.subs|
    ensures step.Read? ==> step.count <= |w.down|
    ensures |After(c, w, step).subs| == |w.subs|
    ensures After(c, w, step).subs[j] == BucketAfter(c, w, step, j)
  {
    hide TReceive, TNak, TRelease, ApplyAll, ParseFrames, Nak, Stored, Answers, EncodeFrames, BucketOf, DatagramFor;
  }

  /** One step of a run. */
  lemma RunStep(c: Setup, ws: seq<World>, steps: seq<Step>, k: nat)
    requires IsRun(c, ws, steps) && k < |steps|
    ensures Safe(c, ws[k]) && Safe(c, ws[k + 1])
    ensures Shaped(c, ws[k]) && Enabled(c, ws[k], steps[k]) && ws[k + 1] == After(c, ws[k], steps[k])
    ensures |ws[k].subs| == |ws[k + 1].subs| == |c.joined|
  {
    hide After, Enabled;
    RunSafe(c, ws, steps, k);
    RunSafe(c, ws, steps, k + 1);
  }

  lemma StepReleases(c: Setup, w: World, step: Step, j: nat)
    requires Shaped(c, w) && Enabled(c, w, step) && j < |w.subs|
    ensures |After(c, w, step).subs| == |w.subs|
    ensures After(c, w, step).subs[j].r.released
            == w.subs[j].r.released + (if step == Deliver(j) then ReleaseAll(w.subs[j].b).1 else [])
  {
    hide After, Enabled, Shaped, Nak, Accept, ParseFrames, ApplyAll, ReleaseAll;
    StepOnBucket(c, w, step, j);
    if step.Read? {
      ApplyAllKeepsReleased(w.subs, ParseFrames(w.repair.held + w.down[..step.count]).frames, j);
    }
    assert w.subs[j].r.released + [] == w.subs[j].r.released;
  }

  lemma {:induction false} CallbackIsReleased(c: Setup, ws: seq<World>, steps: seq<Step>, n: nat, j: nat)
    requires IsRun(c, ws, steps) && n < |ws| && j < |c.joined|
    ensures Shaped(c, ws[n])
    ensures CallbackLog(c, ws, steps, n, j) == Handed(ws[n].subs[j].r.released)
    decreases n
  {
    assert |ws| == |steps| + 1;
    hide IsRun, Safe, Shaped, After, Enabled, Start, Handed, ReleaseAll;
    ShapedThroughout(c, ws, steps, n);
    if n == 0 {
      RunStart(c, ws, steps, j);
    } else {
      CallbackIsReleased(c, ws, steps, n - 1, j);
      CallbackStep(c, ws, steps, n - 1, j);
    }
  }

  lemma ShapedThroughout(c: Setup, ws: seq<World>, steps: seq<Step>, n: nat)
    requires IsRun(c, ws, steps) && n < |ws|
    ensures Shaped(c, ws[n]) && |ws[n].subs| == |c.joined|
  {
    hide IsRun, Enabled, After;
    RunSafe(c, ws, steps, n);
  }

  lemma RunShape(c: Setup, ws: seq<World>, steps: seq<Step>)
    requires IsRun(c, ws, steps)
    ensures |ws| == |steps| + 1 && forall k | 0 <= k < |ws| :: |ws[k].subs| == |c.joined|
  {
    assert |ws| == |steps| + 1;
    hide IsRun, Shaped;
    forall k | 0 <= k < |ws| ensures |ws[k].subs| == |c.joined| {
      ShapedThroughout(c, ws, steps, k);
    }
  }

  lemma RunStart(c: Setup, ws: seq<World>, steps: seq<Step>, j: nat)
    requires IsRun(c, ws, steps) && j < |c.joined|
    ensures |ws[0].subs| == |c.joined| && ws[0].subs[j].r.released == [] && Handed(ws[0].subs[j].r.released) == []
  {
    hide After, Enabled, Shaped;
  }

  lemma CallbackStep(c: Setup, ws: seq<World>, steps: seq<Step>, n: nat, j: nat)
    requires IsRun(c, ws, steps) && n < |steps| && j < |c.joined|
    ensures |ws[n].subs| == |ws[n + 1].subs| == |c.joined|
    ensures Handed(ws[n + 1].subs[j].r.released) == Handed(ws[n].subs[j].r.released)
      + (if steps[n] == Deliver(j) then Handed(ReleaseAll(ws[n].subs[j].b).1) else [])
  {
    RunStep(c, ws, steps, n);
    hide IsRun, After, Enabled, ReleaseAll, Safe, Shaped;
    StepReleases(c, ws[n], steps[n], j);
    HandedAppend(ws[n].subs[j].r.released, if steps[n] == Deliver(j) then ReleaseAll(ws[n].subs[j].b).1 else []);
  }

  /** One bucket's facts, drawn from the invariant. */
  lemma BucketSafe(c: Setup, ws: seq<World>, steps: seq<Step>, n: nat, j: nat)
    requires IsRun(c, ws, steps) && n < |ws| && j < |c.joined|
    ensures Shaped(c, ws[n])
    ensures var t, log := ws[n].subs[j], ws[n].logs[c.joined[j]];
      Sane(t, c.timing, ws[n].clock) && Faithful(t, log, c.ringSize) && LogShape(log, ws[n].finished)
  {
    RunSafe(c, ws, steps, n);
    assert SubTrue(c, ws[n].subs[j], ws[n].logs, ws[n].clock);
  }

  /** The facts about one bucket's released numbers. */
  lemma ReleasedExactly(t: Tracked, log: seq<OrderMessage>, size: nat)
    requires Balanced(t) && Faithful(t, log, size) && t.r.start <= t.b.next
    ensures 1 <= t.r.start
    ensures t.b.next == t.r.start || t.b.next <= |log| + 1
    ensures t.b.next == t.r.start ==> t.r.released == []
    ensures t.b.next <= |log| + 1 ==>
      Handed(t.r.released) == Survivors(log, t.r.start, t.b.next, LostNumbers(t.r.start, t.r.released))
    ensures |Handed(t.r.released)| == t.b.stats.delivered
    ensures |LostNumbers(t.r.start, t.r.released)| == t.b.stats.unrecoverable
    ensures forall s | s in LostNumbers(t.r.start, t.r.released) :: t.r.start <= s < t.b.next
  {
    LostNumbersExact(t.r.start, t.r.released);
    HandedCount(t.r.released);
    hide LostNumbers, Handed, Survivors, PassedTruly, Count;
    if t.b.next <= |log| + 1 {
      HandedSurvivors(log, t.r.start, t.r.released);
    }
  }

  /** In every run, what a bucket's callback was handed is exactly the
      publisher's log from the bucket's first number up to the next one wanted:
      in order, each once, unchanged, but for the numbers counted unrecoverable
      and the end marker. */
  lemma DeliveredExactly(c: Setup, ws: seq<World>, steps: seq<Step>, n: nat, j: nat)
    requires IsRun(c, ws, steps) && n < |ws| && j < |c.joined|
    ensures Shaped(c, ws[n])
    ensures var t, log, handed := ws[n].subs[j], ws[n].logs[c.joined[j]], CallbackLog(c, ws, steps, n, j);
      var lost := LostNumbers(t.r.start, t.r.released);
      && 1 <= t.r.start <= t.b.next
      && (t.b.next == t.r.start || t.b.next <= |log| + 1)
      && (t.b.next == t.r.start ==> handed == [])
      && (t.b.next <= |log| + 1 ==> handed == Survivors(log, t.r.start, t.b.next, lost))
      && |handed| == t.b.stats.delivered && |lost| == t.b.stats.unrecoverable
      && (forall s | s in lost :: t.r.start <= s < t.b.next)
  {
    BucketSafe(c, ws, steps, n, j);
    CallbackIsReleased(c, ws, steps, n, j);
    var t, log := ws[n].subs[j], ws[n].logs[c.joined[j]];
    assert Balanced(t) && t.r.start <= t.b.next;
    hide IsRun, Sane, Faithful, Survivors, LostNumbers, Balanced;
    ReleasedExactly(t, log, c.ringSize);
  }

  // ---- nothing forgotten ----------------------------------------------------------------

  /** Every number from the one wanted next to the highest accepted datagram is
      parked, written off, or a hole; holes are apart from both. */
  lemma NoForgottenGap(c: Setup, ws: seq<World>, steps: seq<Step>, n: nat, j: nat)
    requires IsRun(c, ws, steps) && n < |ws| && j < |c.joined|
    ensures Shaped(c, ws[n])
    ensures var t := ws[n].subs[j];
      && (forall s: u64 | t.b.next <= s <= t.r.hi :: s in t.b.parked || s in t.b.gone || s in t.b.holes)
      && (forall h | h in t.b.holes :: t.b.next <= h < t.r.hi && h !in t.b.parked && h !in t.b.gone)
      && (forall s | s in t.b.parked :: t.b.next <= s <= t.r.hi)
  {
    BucketSafe(c, ws, steps, n, j);
    var t := ws[n].subs[j];
    forall s: u64 | t.b.next <= s <= t.r.hi ensures s in t.b.parked || s in t.b.gone || s in t.b.holes {
      assert Known(t.b, s);
    }
  }

  /** From t to u no notice is forgotten, and no number noticed before becomes
      a hole. */
  ghost predicate NoticesOnce(t: Tracked, u: Tracked) {
    && (forall s | s in t.r.noticedAt :: s in u.r.noticedAt)
    && (forall h | h in u.b.holes && h !in t.b.holes :: h !in t.r.noticedAt)
  }

  lemma BucketNotices(c: Setup, w: World, step: Step, j: nat)
    requires j < |w.subs| && (step.Read? ==> step.count <= |w.down|)
    requires Covered(w.subs[j]) && Orderly(w.subs[j].b)
    ensures NoticesOnce(w.subs[j], BucketAfter(c, w, step, j))
  {
    hide Covered, Orderly, ParseFrames, ApplyAll, ReleaseAll, TNak, TAccept;
    var t := w.subs[j];
    match step
    case Read(count) =>
      ApplyAllKeepsReleased(w.subs, ParseFrames(w.repair.held + w.down[..count]).frames, j);
    case Receive(k, d) =>
      if k == j && DgramDecode(d).Some? {
        AcceptNotices(t, DgramDecode(d).value.sequence, DgramDecode(d).value.message, w.clock, c.backfill);
      }
    case Poll(k, connects, writes) =>
      NakNotices(t, w.repair, w.clock, c.timing, connects, writes);
    case Deliver(k) =>
      ReleaseKeepsHoles(t.b);
    case _ =>
  }

  lemma SafeBucket(c: Setup, w: World, j: nat)
    requires Safe(c, w) && j < |w.subs|
    ensures Covered(w.subs[j]) && Orderly(w.subs[j].b)
  {
    assert SubTrue(c, w.subs[j], w.logs, w.clock);
  }

  lemma StepNotices(c: Setup, w: World, step: Step, j: nat)
    requires Safe(c, w) && Enabled(c, w, step) && j < |w.subs|
    ensures |After(c, w, step).subs| == |w.subs|
    ensures NoticesOnce(w.subs[j], After(c, w, step).subs[j])
  {
    assert Shaped(c, w);
    hide Safe, After, Enabled, Covered, Orderly, NoticesOnce, BucketAfter, Shaped;
    SafeBucket(c, w, j);
    StepOnBucket(c, w, step, j);
    BucketNotices(c, w, step, j);
  }

  lemma NakNotices(t: Tracked, r: Repair, now: nat, timing: Timing, connects: bool, writes: bool)
    ensures TNak(t, r, now, timing, connects, writes).r.noticedAt == t.r.noticedAt
    ensures forall h | h in TNak(t, r, now, timing, connects, writes).b.holes :: h in t.b.holes
  {
  }

  lemma AcceptNotices(t: Tracked, sequence: u64, m: OrderMessage, now: nat, backfill: nat)
    requires Covered(t) && Orderly(t.b)
    ensures NoticesOnce(t, TAccept(t, sequence, m, now, backfill))
  {
    var v, u := Synced(t, sequence, backfill), TAccept(t, sequence, m, now, backfill);
    assert Covered(v) && v.b.holes == t.b.holes && v.r.noticedAt == t.r.noticedAt;
    if !Duplicate(v.b, sequence) {
      assert u.b == Accept(v.b, sequence, m, now, 0);
      forall h | h in u.b.holes && h !in t.b.holes ensures h !in t.r.noticedAt {
        NewHolesAreNew(v, sequence, m, now, h);
      }
    }
  }

  ghost predicate BecomesHole(ws: seq<World>, n: nat, j: nat, s: u64)
    requires n + 1 < |ws| && j < |ws[n].subs| && j < |ws[n + 1].subs|
  {
    s in ws[n + 1].subs[j].b.holes && s !in ws[n].subs[j].b.holes
  }

  lemma {:induction false} NoticeKept(c: Setup, ws: seq<World>, steps: seq<Step>, n: nat, later: nat, j: nat, s: u64)
    requires IsRun(c, ws, steps) && n <= later < |ws| && j < |c.joined|
    requires |ws| == |steps| + 1 && |ws[n].subs| == |c.joined| && s in ws[n].subs[j].r.noticedAt
    ensures |ws[later].subs| == |c.joined| && s in ws[later].subs[j].r.noticedAt
    decreases later
  {
    hide IsRun;
    if n < later {
      NoticeKept(c, ws, steps, n, later - 1, j, s);
      RunNotices(c, ws, steps, later - 1, j);
    }
  }

  lemma RunNotices(c: Setup, ws: seq<World>, steps: seq<Step>, n: nat, j: nat)
    requires IsRun(c, ws, steps) && n < |steps| && j < |c.joined|
    ensures |ws[n].subs| == |ws[n + 1].subs| == |c.joined|
    ensures NoticesOnce(ws[n].subs[j], ws[n + 1].subs[j])
  {
    RunStep(c, ws, steps, n);
    assert Shaped(c, ws[n + 1]);
    hide IsRun, After, Enabled, Safe, Shaped, NoticesOnce;
    StepNotices(c, ws[n], steps[n], j);
  }

  /** A number becomes a hole at most once in a run. */
  lemma HoleAtMostOnce(c: Setup, ws: seq<World>, steps: seq<Step>, n: nat, later: nat, j: nat, s: u64)
    requires IsRun(c, ws, steps) && n < later < |steps| && j < |c.joined|
    ensures |ws[n].subs| == |ws[n + 1].subs| == |ws[later].subs| == |ws[later + 1].subs| == |c.joined|
    ensures BecomesHole(ws, n, j, s) ==> !BecomesHole(ws, later, j, s)
  {
    assert |ws| == |steps| + 1;
    hide IsRun, After, Enabled, Safe, Sane, Faithful, Shaped, LogShape;
    RunNotices(c, ws, steps, n, j);
    RunNotices(c, ws, steps, later, j);
    if BecomesHole(ws, n, j, s) {
      NoticedAfter(c, ws, steps, n + 1, j, s);
      NoticeKept(c, ws, steps, n + 1, later, j, s);
    }
  }

  lemma NoticedAfter(c: Setup, ws: seq<World>, steps: seq<Step>, n: nat, j: nat, s: u64)
    requires IsRun(c, ws, steps) && n < |ws| && j < |c.joined|
    ensures |ws[n].subs| == |c.joined|
    ensures s in ws[n].subs[j].b.holes ==> s in ws[n].subs[j].r.noticedAt
  {
    hide IsRun;
    BucketSafe(c, ws, steps, n, j);
  }

  // ---- requests -----------------------------------------------------------------------------

  /** Every request ever sent names at most a batch of noticed holes in strictly
      increasing order, and two requests naming the same number were sent more
      than the repeat interval apart. */
  lemma RequestsSpaced(c: Setup, ws: seq<World>, steps: seq<Step>, n: nat, j: nat)
    requires IsRun(c, ws, steps) && n < |ws| && j < |c.joined|
    ensures Shaped(c, ws[n])
    ensures var r := ws[n].subs[j].r;
      && (forall k | 0 <= k < |r.asks| ::
            0 < |r.asks[k].sequences| <= MAX_REPAIR_BATCH && StrictlyAscending(r.asks[k].sequences)
            && forall s | s in r.asks[k].sequences :: s in r.noticedAt && r.noticedAt[s] <= r.asks[k].at)
      && (forall k, l, s | 0 <= k < l < |r.asks| && s in r.asks[k].sequences && s in r.asks[l].sequences ::
            r.asks[l].at - r.asks[k].at > c.timing.nakRepeat)
      && |r.asks| == ws[n].subs[j].b.stats.requests
  {
    BucketSafe(c, ws, steps, n, j);
    var r := ws[n].subs[j].r;
    assert forall k | 0 <= k < |r.asks| :: WellFormedAsk(r.asks[k], r.noticedAt);
  }

  /** A tick that asks names only current holes that are due, in increasing
      order, and passes over one that is due only if the batch is full of lower
      numbers. */
  lemma RequestNamesLowestDue(c: Setup, ws: seq<World>, steps: seq<Step>, n: nat, j: nat, connects: bool, writes: bool)
    requires IsRun(c, ws, steps) && n < |ws| && j < |c.joined|
    ensures Shaped(c, ws[n])
    ensures var w := ws[n];
      var asked := Nak(w.subs[j].b, w.repair, w.clock, c.timing, connects, writes).asked;
      var live := Expire(w.subs[j].b, w.clock, c.timing.giveup).holes;
      asked != [] ==>
        && StrictlyAscending(asked) && |asked| <= MAX_REPAIR_BATCH
        && (forall s | s in asked :: Wanted(live, s, w.clock, c.timing))
        && (forall s | Wanted(live, s, w.clock, c.timing) && s !in asked ::
              |asked| == MAX_REPAIR_BATCH && forall k | 0 <= k < |asked| :: asked[k] < s)
  {
    RunSafe(c, ws, steps, n);
    var w := ws[n];
    BatchShape(Expire(w.subs[j].b, w.clock, c.timing.giveup), w.clock, c.timing);
  }

  // ---- write-offs ---------------------------------------------------------------------------

  /** Every number counted unrecoverable was a hole that outlived the give-up
      time, or one the server no longer held because at least a ringful of newer
      messages had been published in its bucket. */
  lemma WriteOffsJustified(c: Setup, ws: seq<World>, steps: seq<Step>, n: nat, j: nat, s: u64)
    requires IsRun(c, ws, steps) && n < |ws| && j < |c.joined|
    ensures Shaped(c, ws[n])
    ensures var t, log := ws[n].subs[j], ws[n].logs[c.joined[j]];
      s in t.b.gone || s in LostNumbers(t.r.start, t.r.released) ==>
        && s in t.r.noticedAt && s in t.r.writtenOff
        && (match t.r.writtenOff[s]
            case TimedOut(at) => at - t.r.noticedAt[s] > c.timing.giveup
            case NoLongerHeld => s + c.ringSize <= |log|)
  {
    BucketSafe(c, ws, steps, n, j);
    hide IsRun, Shaped, LogShape, LostNumbers, Faithful;
    var t := ws[n].subs[j];
    if s in t.b.gone || s in LostNumbers(t.r.start, t.r.released) {
      WriteOffGrounded(t, ws[n].logs[c.joined[j]], c.ringSize, c.timing, s);
    }
  }

  lemma WriteOffGrounded(t: Tracked, log: seq<OrderMessage>, size: nat, timing: Timing, s: u64)
    requires Justified(t, timing) && Faithful(t, log, size)
    requires s in t.b.gone || s in LostNumbers(t.r.start, t.r.released)
    ensures s in t.r.noticedAt && s in t.r.writtenOff
    ensures match t.r.writtenOff[s]
            case TimedOut(at) => at - t.r.noticedAt[s] > timing.giveup
            case NoLongerHeld => s + size <= |log|
  {
    hide LostNumbers, PassedTruly, Grounded;
    if s in LostNumbers(t.r.start, t.r.released) {
      LostNumbersExact(t.r.start, t.r.released);
      LostWrittenOff(t, timing, s - t.r.start);
    }
    GroundedReason(t, timing, s);
  }

  lemma GroundedReason(t: Tracked, timing: Timing, s: u64)
    requires Justified(t, timing) && s in t.r.writtenOff
    ensures t.r.writtenOff[s].TimedOut?
        ==> s in t.r.noticedAt && t.r.writtenOff[s].at - t.r.noticedAt[s] > timing.giveup
  {
    assert Grounded(t, s, timing);
  }

  lemma LostWrittenOff(t: Tracked, timing: Timing, k: nat)
    requires Justified(t, timing) && k < |t.r.released| && t.r.released[k].Lost?
    ensures t.r.start + k in t.r.writtenOff
  {
  }

  /** One of the frames says that s is no longer held. */
  ghost predicate SaidGone(fs: seq<Frame>, bucket: u16, s: u64) {
    exists k | 0 <= k < |fs| :: fs[k].bucket == bucket && fs[k].sequence == s && fs[k].payload.None?
  }

  lemma SaidGoneSplit(fs: seq<Frame>, bucket: u16, s: u64)
    requires fs != []
    ensures SaidGone(fs, bucket, s)
       <==> (fs[0].bucket == bucket && fs[0].sequence == s && fs[0].payload.None?) || SaidGone(fs[1..], bucket, s)
  {
    assert forall k | 0 < k < |fs| :: fs[k] == fs[1..][k - 1];
  }

  ghost predicate ApartIds(subs: seq<Tracked>) {
    forall i, k | 0 <= i < k < |subs| :: subs[i].b.id != subs[k].b.id
  }

  /** A frame for a bucket reaches that bucket, and no other. */
  lemma OneReached(subs: seq<Tracked>, f: Frame, j: nat)
    requires ApartIds(subs) && j < |subs|
    ensures ApplyOne(subs, f)[j] == if f.bucket == subs[j].b.id then TFrame(subs[j], f) else subs[j]
    ensures ApartIds(ApplyOne(subs, f))
  {
    var i := FindTracked(subs, f.bucket);
    if i.Some? {
      FrameKeepsIdentity(subs[i.value], f);
    }
    hide TFrame;
  }

  lemma FrameGone(t: Tracked, f: Frame, s: u64)
    ensures var u := TFrame(t, f);
      && u.b.next == t.b.next && u.b.id == t.b.id
      && (s in u.b.gone <==> s in t.b.gone || (s == f.sequence && f.payload.None? && s >= t.b.next))
  {
  }

  /** Why s was written off in this bucket, if it was. */
  function OffAt(t: Tracked, s: u64): Option<Reason> {
    if s in t.r.writtenOff then Some(t.r.writtenOff[s]) else None
  }

  lemma {:induction false} FramesGone(subs: seq<Tracked>, fs: seq<Frame>, j: nat, s: u64)
    requires ApartIds(subs) && j < |subs|
    ensures var t, u := subs[j], ApplyAll(subs, fs)[j];
      && (s in u.b.gone <==> s in t.b.gone || (s >= t.b.next && SaidGone(fs, t.b.id, s)))
      && OffAt(u, s) == if s >= t.b.next && SaidGone(fs, t.b.id, s) then Some(NoLongerHeld) else OffAt(t, s)
    decreases |fs|
  {
    hide TFrame, ApplyOne, ApartIds, OffAt, SaidGone;
    if fs == [] {
      NothingSaid(subs[j].b.id, s);
    } else {
      OneReached(subs, fs[0], j);
      FrameGone(subs[j], fs[0], s);
      FrameOff(subs[j], fs[0], s);
      SaidGoneSplit(fs, subs[j].b.id, s);
      FramesGone(ApplyOne(subs, fs[0]), fs[1..], j, s);
    }
  }

  lemma FrameOff(t: Tracked, f: Frame, s: u64)
    ensures OffAt(TFrame(t, f), s)
            == if s == f.sequence && f.payload.None? && s >= t.b.next then Some(NoLongerHeld) else OffAt(t, s)
  {
  }

  lemma NothingSaid(bucket: u16, s: u64)
    ensures !SaidGone([], bucket, s)
  {
  }

  /** A step writes s off in bucket j: a tick finds its hole late, or a frame
      read says it is no longer held. */
  ghost predicate TimesOut(c: Setup, w: World, step: Step, j: nat, s: u64)
    requires j < |w.subs|
  {
    step.Poll? && step.joined == j && s in Expired(w.subs[j].b, w.clock, c.timing.giveup)
  }

  ghost predicate ToldGone(w: World, step: Step, j: nat, s: u64)
    requires j < |w.subs| && (step.Read? ==> step.count <= |w.down|)
  {
    && step.Read? && s >= w.subs[j].b.next
    && SaidGone(ParseFrames(w.repair.held + w.down[..step.count]).frames, w.subs[j].b.id, s)
  }

  lemma {:induction false} ReleaseGone(b: Bucket, s: u64)
    ensures s in ReleaseAll(b).0.gone ==> s in b.gone
    decreases |b.parked| + |b.gone|
  {
    if ReleaseOne(b).Some? {
      ReleaseShrinks(b);
      ReleaseGone(ReleaseOne(b).value.0, s);
    }
  }

  lemma NakGone(t: Tracked, r: Repair, now: nat, timing: Timing, connects: bool, writes: bool, s: u64)
    ensures var u, late := TNak(t, r, now, timing, connects, writes), s in Expired(t.b, now, timing.giveup);
      && (s in u.b.gone <==> s in t.b.gone || late)
      && OffAt(u, s) == if late then Some(TimedOut(now)) else OffAt(t, s)
  {
  }

  lemma BucketGone(c: Setup, w: World, step: Step, j: nat, s: u64)
    requires j < |w.subs| && (step.Read? ==> step.count <= |w.down|) && ApartIds(w.subs)
    ensures var t, u := w.subs[j], BucketAfter(c, w, step, j);
      && (s in u.b.gone && s !in t.b.gone
          <==> s !in t.b.gone && (TimesOut(c, w, step, j, s) || ToldGone(w, step, j, s)))
      && OffAt(u, s) == if TimesOut(c, w, step, j, s) then Some(TimedOut(w.clock))
                        else if ToldGone(w, step, j, s) then Some(NoLongerHeld) else OffAt(t, s)
  {
    hide TNak, ApplyAll, ParseFrames, ReleaseAll, SaidGone, Accept, DgramDecode, Expired;
    var t := w.subs[j];
    match step
    case Poll(k, connects, writes) => NakGone(t, w.repair, w.clock, c.timing, connects, writes, s);
    case Read(count) => FramesGone(w.subs, ParseFrames(w.repair.held + w.down[..count]).frames, j, s);
    case Deliver(k) => ReleaseGone(t.b, s);
    case Receive(k, d) =>
      if DgramDecode(d).Some? {
        AcceptGone(t, DgramDecode(d).value.sequence, DgramDecode(d).value.message, w.clock, c.backfill);
      }
    case _ =>
  }

  lemma AcceptGone(t: Tracked, sequence: u64, m: OrderMessage, now: nat, backfill: nat)
    ensures var u := TAccept(t, sequence, m, now, backfill); u.b.gone == t.b.gone && u.r.writtenOff == t.r.writtenOff
  {
  }

  lemma IdsApart(c: Setup, w: World)
    requires Shaped(c, w)
    ensures ApartIds(w.subs)
  {
    forall i, k | 0 <= i < k < |w.subs| ensures w.subs[i].b.id != w.subs[k].b.id {
      assert c.joined[i] != c.joined[k];
    }
  }

  /** In any world, honest or not: a step writes a number off exactly when it is
      a tick that finds the number's hole late, or reads a frame that says the
      number is no longer held. Failed connects, failed writes, closed or cut
      connections and frames of impossible length write nothing off. */
  lemma WriteOffCauses(c: Setup, w: World, step: Step, j: nat, s: u64)
    requires Shaped(c, w) && Enabled(c, w, step) && j < |w.subs|
    ensures step.Read? ==> step.count <= |w.down|
    ensures |After(c, w, step).subs| == |w.subs|
    ensures var t, u := w.subs[j], After(c, w, step).subs[j];
      && (s in u.b.gone && s !in t.b.gone
          <==> s !in t.b.gone && (TimesOut(c, w, step, j, s) || ToldGone(w, step, j, s)))
      && OffAt(u, s) == if TimesOut(c, w, step, j, s) then Some(TimedOut(w.clock))
                        else if ToldGone(w, step, j, s) then Some(NoLongerHeld) else OffAt(t, s)
  {
    hide After, Enabled, Shaped, BucketAfter, TimesOut, ToldGone, OffAt;
    IdsApart(c, w);
    StepOnBucket(c, w, step, j);
    BucketGone(c, w, step, j, s);
  }

  // ---- the end of the stream -------------------------------------------------------------------

  /** The end marker is never a hole and never written off. */
  lemma EndNeverMissing(c: Setup, ws: seq<World>, steps: seq<Step>, n: nat, j: nat)
    requires IsRun(c, ws, steps) && n < |ws| && j < |c.joined|
    ensures Shaped(c, ws[n])
    ensures var t, log := ws[n].subs[j], ws[n].logs[c.joined[j]];
      ws[n].finished ==>
        |log| !in t.b.holes && |log| !in t.b.gone && |log| !in t.r.noticedAt && |log| !in t.r.writtenOff
  {
    BucketSafe(c, ws, steps, n, j);
  }

  /** A bucket is done only after the publisher finished, when every number from
      its first one to the end marker was delivered or counted unrecoverable,
      and nothing is parked or missing. */
  lemma DoneMeansComplete(c: Setup, ws: seq<World>, steps: seq<Step>, n: nat, j: nat)
    requires IsRun(c, ws, steps) && n < |ws| && j < |c.joined|
    ensures Shaped(c, ws[n])
    ensures var t, log := ws[n].subs[j], ws[n].logs[c.joined[j]];
      t.b.done ==>
        && ws[n].finished && t.b.next == |log| + 1
        && t.b.parked == map[] && t.b.holes == map[]
        && |log| + 1 - t.r.start == t.b.stats.delivered + t.b.stats.unrecoverable + 1
  {
    BucketSafe(c, ws, steps, n, j);
    var t, log := ws[n].subs[j], ws[n].logs[c.joined[j]];
    if t.b.done {
      var last := |t.r.released| - 1;
      assert t.r.released[last].Ended? && PassedTruly(t.r.released[last], log, t.r.start + last);
      assert t.b.next == |log| + 1;
      assert forall s | s in t.b.parked :: s <= |log|;
      assert forall h | h in t.b.holes :: h < t.r.hi <= |log|;
    }
  }

  /** Every number passed was delivered, lost, or the end marker; every message
      that came by datagram or repair was delivered, is parked, or is the end
      marker; and the publisher used its numbers for what it published in the
      bucket and, once finished, for the end marker. */
  lemma Conservation(c: Setup, ws: seq<World>, steps: seq<Step>, n: nat, j: nat)
    requires IsRun(c, ws, steps) && n < |ws| && j < |c.joined|
    ensures Shaped(c, ws[n])
    ensures var t, ring := ws[n].subs[j], ws[n].rings[c.joined[j]];
      var published := |BookLaws.OfBucket(PublishedIn(steps, n), c.joined[j], c.bucketCount)|;
      var end := if t.b.done then 1 else 0;
      && t.b.next - t.r.start == t.b.stats.delivered + t.b.stats.unrecoverable + end
      && t.r.byUdp + t.b.stats.repaired == t.b.stats.delivered + |t.b.parked| + end
      && ring.next - 1 == published + (if ws[n].finished then 1 else 0)
  {
    BucketSafe(c, ws, steps, n, j);
    hide IsRun, PublishedIn, BookLaws.OfBucket;
    NumbersPublished(c, ws, steps, n, c.joined[j]);
  }

  // ---- bounded blocking ----------------------------------------------------------------------------

  /** After a tick of a bucket at any time and a delivery, whatever became of
      the repair connection, the bucket is done, or past everything accepted, or
      waits for a hole noticed no longer ago than the give-up time. */
  lemma BoundedBlocking(c: Setup, ws: seq<World>, steps: seq<Step>, n: nat, j: nat, connects: bool, writes: bool)
    requires IsRun(c, ws, steps) && n + 2 < |ws| && j < |c.joined|
    requires steps[n] == Poll(j, connects, writes) && steps[n + 1] == Deliver(j)
    ensures Shaped(c, ws[n + 2])
    ensures var t := ws[n + 2].subs[j];
      || t.b.done
      || t.b.next > t.r.hi
      || (t.b.next in t.b.holes && ws[n].clock - t.b.holes[t.b.next].noticed <= c.timing.giveup)
  {
    hide IsRun, Sane, Faithful, LogShape, TNak, TRelease;
    BucketSafe(c, ws, steps, n, j);
    BucketSafe(c, ws, steps, n + 2, j);
    TickedThenDelivered(c, ws, steps, n, j, connects, writes);
    hide Shaped;
    var w := ws[n];
    WaitsForRecentHole(w.subs[j], w.repair, w.clock, c.timing, connects, writes,
                       ws[n + 2].logs[c.joined[j]], c.ringSize, ws[n + 2].clock);
  }

  /** No session hangs once its end marker was accepted: when every hole is
      older than the give-up time, one tick and one delivery finish the bucket,
      whatever the repair server does. */
  lemma SessionEnds(c: Setup, ws: seq<World>, steps: seq<Step>, n: nat, j: nat, connects: bool, writes: bool)
    requires IsRun(c, ws, steps) && n + 2 < |ws| && j < |c.joined|
    requires steps[n] == Poll(j, connects, writes) && steps[n + 1] == Deliver(j)
    requires Shaped(c, ws[n])
    requires var w, t := ws[n], ws[n].subs[j];
      && w.finished && t.r.start <= |w.logs[c.joined[j]]| == t.r.hi
      && (forall h | h in t.b.holes :: w.clock - t.b.holes[h].noticed > c.timing.giveup)
    ensures Shaped(c, ws[n + 2]) && ws[n + 2].subs[j].b.done
  {
    hide IsRun, Sane, Faithful, LogShape, TNak, TRelease;
    BucketSafe(c, ws, steps, n + 2, j);
    hide Shaped;
    BoundedBlocking(c, ws, steps, n, j, connects, writes);
    TickedThenDelivered(c, ws, steps, n, j, connects, writes);
    TickAndDeliveryKeep(c, ws, steps, n, j);
    var w := ws[n];
    LateHolesGo(w.subs[j], w.repair, w.clock, c.timing, connects, writes);
    var u := ws[n + 2].subs[j];
    if !u.b.done {
      PastTheEnd(u, ws[n + 2].logs[c.joined[j]], c.ringSize, c.timing, ws[n + 2].clock);
    }
  }

  lemma TickAndDeliveryKeep(c: Setup, ws: seq<World>, steps: seq<Step>, n: nat, j: nat)
    requires IsRun(c, ws, steps) && n + 2 < |ws| && steps[n].Poll? && steps[n + 1].Deliver?
    ensures ws[n + 2].logs == ws[n].logs && ws[n + 2].finished == ws[n].finished
  {
    assert |ws| == |steps| + 1;
    hide IsRun, After, Enabled, Safe, Shaped;
    RunStep(c, ws, steps, n);
    RunStep(c, ws, steps, n + 1);
    LogsKept(c, ws[n], steps[n]);
    LogsKept(c, ws[n + 1], steps[n + 1]);
  }

  /** When every hole is late, a tick leaves none. */
  lemma LateHolesGo(t: Tracked, r: Repair, now: nat, timing: Timing, connects: bool, writes: bool)
    requires forall h | h in t.b.holes :: now - t.b.holes[h].noticed > timing.giveup
    ensures var u := TRelease(TNak(t, r, now, timing, connects, writes));
      u.b.holes == map[] && u.r.hi == t.r.hi && u.r.start == t.r.start
  {
    var n := Nak(t.b, r, now, timing, connects, writes).bucket;
    assert Expire(t.b, now, timing.giveup).holes == map[];
    ReleaseKeepsHoles(n);
    hide ReleaseAll;
  }

  /** A bucket past everything accepted, the end marker included, is done. */
  lemma PastTheEnd(t: Tracked, log: seq<OrderMessage>, size: nat, timing: Timing, clock: nat)
    requires Sane(t, timing, clock) && Faithful(t, log, size) && LogShape(log, true)
    requires t.r.start <= |log| == t.r.hi < t.b.next
    ensures t.b.done
  {
    var k := |log| - t.r.start;
    assert |t.r.released| == k + 1 && PassedTruly(t.r.released[k], log, t.r.start + k);
    assert t.r.released[k].Lost? ==> |log| in t.r.writtenOff;
  }

  lemma TickedThenDelivered(c: Setup, ws: seq<World>, steps: seq<Step>, n: nat, j: nat, connects: bool, writes: bool)
    requires IsRun(c, ws, steps) && n + 2 < |ws| && j < |c.joined|
    requires steps[n] == Poll(j, connects, writes) && steps[n + 1] == Deliver(j)
    ensures |ws[n].subs| == |ws[n + 2].subs| == |c.joined|
    ensures var w := ws[n];
      ws[n + 2].subs[j] == TRelease(TNak(w.subs[j], w.repair, w.clock, c.timing, connects, writes))
  {
    hide IsRun, After, Enabled, Safe, Shaped, TNak, TRelease;
    RunShape(c, ws, steps);
    RunStep(c, ws, steps, n);
    RunStep(c, ws, steps, n + 1);
    StepOnBucket(c, ws[n], steps[n], j);
    StepOnBucket(c, ws[n + 1], steps[n + 1], j);
  }

  lemma WaitsForRecentHole(t: Tracked, r: Repair, now: nat, timing: Timing, connects: bool, writes: bool,
                           log: seq<OrderMessage>, size: nat, later: nat)
    requires Sane(t, timing, now) && |log| < 0x1_0000_0000_0000_0000
    requires var u := TRelease(TNak(t, r, now, timing, connects, writes));
      Sane(u, timing, later) && Faithful(u, log, size)
    ensures var u := TRelease(TNak(t, r, now, timing, connects, writes));
      u.b.done || u.b.next > u.r.hi || (u.b.next in u.b.holes && now - u.b.holes[u.b.next].noticed <= timing.giveup)
  {
    var u, polled := TRelease(TNak(t, r, now, timing, connects, writes)),
        Nak(t.b, r, now, timing, connects, writes).bucket;
    assert u.b == ReleaseAll(polled).0 && Covered(u);
    assert u.b.next <= u.r.hi ==> u.r.hi <= |log|;
    assert Orderly(t.b) && StampedBy(t.b, now);
    hide Sane, Faithful, TRelease, TNak, Nak, Covered, Orderly;
    NakThenDeliverUnstuck(t.b, r, now, timing, connects, writes);
    NakOrderly(t.b, r, now, timing, connects, writes);
    ReleaseAllOrderly(polled, now);
    StillWaiting(u);
  }

  /** With nothing to release, what is wanted next is a hole, or lies past
      everything accepted. */
  lemma StillWaiting(t: Tracked)
    requires Covered(t) && ReleaseOne(t.b).None?
    requires t.b.next <= t.r.hi ==> t.b.next < 0x1_0000_0000_0000_0000
    ensures t.b.done || t.b.next > t.r.hi || t.b.next in t.b.holes
  {
    if !t.b.done && t.b.next <= t.r.hi {
      assert Known(t.b, t.b.next);
    }
  }

  // ---- the repair dialogue -----------------------------------------------------------------------------

  /** The server's response to a request parses into one answer per requested
      number, in request order; each is the published payload exactly while the
      ring holds it. */
  lemma ResponsesParse(log: seq<OrderMessage>, size: nat, bucket: u16, sequences: seq<u64>, k: nat)
    requires size > 0 && k < |sequences|
    ensures var p := ParseFrames(EncodeFrames(Answers(RingOf(log, size), bucket, sequences)));
      && !p.bad && p.rest == [] && |p.frames| == |sequences|
      && p.frames[k].bucket == bucket && p.frames[k].sequence == sequences[k]
      && (p.frames[k].payload == if Held(sequences[k], |log|, size) then Some(Encode(log[sequences[k] - 1])) else None)
  {
    hide RingOf, Answer, Encode, EncodeFrames, ParseFrames;
    var fs := Answers(RingOf(log, size), bucket, sequences);
    RingAnswers(log, size, bucket, sequences[k]);
    assert EncodeFrames(fs) == EncodeFrames(fs) + [];
    ParseUnique(EncodeFrames(fs), fs, []);
  }

  /** Nobody is told "gone" about a number that is still held or not yet
      published: every such answer in flight concerns a number at least a
      ringful old. */
  lemma NeverFalselyGone(c: Setup, ws: seq<World>, steps: seq<Step>, n: nat, k: nat)
    requires IsRun(c, ws, steps) && n < |ws| && k < |ws[n].owed|
    ensures var f := ws[n].owed[k];
      f.bucket < |ws[n].logs| && (f.payload.None? ==> f.sequence + c.ringSize <= |ws[n].logs[f.bucket]|)
  {
    RunSafe(c, ws, steps, n);
    assert HonestFrame(ws[n].subs, ws[n].logs, ws[n].owed[k], c.ringSize);
  }

  // ---- the world's subscriber is the class's -------------------------------------------------------------

  function BucketsOf(subs: seq<Tracked>): (bs: seq<Bucket>)
    ensures |bs| == |subs| && forall j | 0 <= j < |subs| :: bs[j] == subs[j].b
  {
    seq(|subs|, j requires 0 <= j < |subs| => subs[j].b)
  }

  function View(w: World): SubscriberState {
    SubscriberState(BucketsOf(w.subs), w.repair)
  }

  lemma {:induction false} FindAgrees(subs: seq<Tracked>, id: u16)
    ensures Find(BucketsOf(subs), id) == FindTracked(subs, id)
    decreases |subs|
  {
    if subs != [] {
      assert BucketsOf(subs)[1..] == BucketsOf(subs[1..]);
      FindAgrees(subs[1..], id);
    }
  }

  lemma {:induction false} ApplyAgrees(subs: seq<Tracked>, fs: seq<Frame>)
    ensures BucketsOf(ApplyAll(subs, fs)) == ApplyFrames(BucketsOf(subs), fs)
    decreases |fs|
  {
    if fs != [] {
      FindAgrees(subs, fs[0].bucket);
      assert BucketsOf(ApplyOne(subs, fs[0])) == Buckets.ApplyTo(BucketsOf(subs), fs[0]);
      ApplyAgrees(ApplyOne(subs, fs[0]), fs[1..]);
    }
  }

  /** Seen without its history, the world's subscriber takes exactly the steps
      that the methods of the subscriber are proved to take. */
  lemma SubscriberSteps(c: Setup, w: World, step: Step)
    requires Shaped(c, w) && Enabled(c, w, step)
    ensures var was, now := View(w), View(After(c, w, step));
      match step
      case Receive(j, d) => now
          == was.(buckets := was.buckets[j := AcceptDatagram(was.buckets[j], d, w.clock, c.backfill)])
      case Poll(j, connects, writes) =>
        var n := Nak(was.buckets[j], was.repair, w.clock, c.timing, connects, writes);
        now == SubscriberState(was.buckets[j := n.bucket], n.repair)
      case Read(count) => now == Drained(was, w.down[..count])
      case Close => now == Disconnected(was)
      case Deliver(j) => now == was.(buckets := was.buckets[j := ReleaseAll(was.buckets[j]).0])
      case _ => now == was
  {
    hide TNak, TAccept, TRelease, Accept, Nak, ReleaseAll, ParseFrames, ApplyAll, ApplyFrames;
    BucketSteps(c, w, step);
    if step.Read? {
      ApplyAgrees(w.subs, ParseFrames(w.repair.held + w.down[..step.count]).frames);
    }
  }

  lemma BucketSteps(c: Setup, w: World, step: Step)
    requires Shaped(c, w) && Enabled(c, w, step)
    ensures var now := BucketsOf(After(c, w, step).subs);
      match step
      case Receive(j, d) => now == BucketsOf(w.subs)[j := AcceptDatagram(w.subs[j].b, d, w.clock, c.backfill)]
      case Poll(j, connects, writes) =>
        now == BucketsOf(w.subs)[j := Nak(w.subs[j].b, w.repair, w.clock, c.timing, connects, writes).bucket]
      case Read(count) => now == BucketsOf(ApplyAll(w.subs, ParseFrames(w.repair.held + w.down[..count]).frames))
      case Deliver(j) => now == BucketsOf(w.subs)[j := ReleaseAll(w.subs[j].b).0]
      case _ => now == BucketsOf(w.subs)
  {
    StepInRange(c, w, step);
    hide After, Enabled, Shaped, Accept, Nak, ReleaseAll, ParseFrames, ApplyAll;
    forall k | 0 <= k < |w.subs|
      ensures |After(c, w, step).subs| == |w.subs| && After(c, w, step).subs[k] == BucketAfter(c, w, step, k)
    {
      StepOnBucket(c, w, step, k);
    }
    SameLength(c, w, step);
  }

  lemma SameLength(c: Setup, w: World, step: Step)
    requires Shaped(c, w) && Enabled(c, w, step)
    ensures |After(c, w, step).subs| == |w.subs|
  {
    hide TReceive, TNak, TRelease, ApplyAll, ParseFrames, Nak, Stored, Answers, EncodeFrames, BucketOf, DatagramFor;
  }

  lemma StepInRange(c: Setup, w: World, step: Step)
    requires Shaped(c, w) && Enabled(c, w, step)
    ensures step.Receive? || step.Poll? || step.Deliver? ==> step.joined < |w.subs|
    ensures step.Read? ==> step.count <= |w.down|
  {
    hide Shaped;
  }

  // ---- a clean consumer sees the publisher's books ------------------------------------------------------------

  lemma {:induction false} NothingLost(log: seq<OrderMessage>, upTo: nat)
    requires upTo <= |log| + 1 && upTo >= 1
    requires forall k | 0 <= k < upTo - 1 :: log[k].kind != END
    ensures Survivors(log, 1, upTo, {}) == log[..upTo - 1]
    decreases upTo
  {
    if upTo > 1 {
      NothingLost(log, upTo - 1);
    }
  }

  /** A consumer that wanted everything from number 1, reached the end marker
      and lost nothing was handed the whole log but for the end marker. */
  lemma CleanConsumerComplete(c: Setup, ws: seq<World>, steps: seq<Step>, n: nat, j: nat)
    requires IsRun(c, ws, steps) && n < |ws| && j < |c.joined|
    requires Shaped(c, ws[n])
    requires ws[n].subs[j].b.done && ws[n].subs[j].r.start == 1 && ws[n].subs[j].b.stats.unrecoverable == 0
    ensures var log := ws[n].logs[c.joined[j]];
      && log != [] && log[|log| - 1].kind == END
      && CallbackLog(c, ws, steps, n, j) == log[..|log| - 1]
  {
    BucketSafe(c, ws, steps, n, j);
    DoneMeansComplete(c, ws, steps, n, j);
    DeliveredExactly(c, ws, steps, n, j);
    var t, log := ws[n].subs[j], ws[n].logs[c.joined[j]];
    var lost := LostNumbers(1, t.r.released);
    assert lost == {};
    NothingLost(log, |log|);
    assert Survivors(log, 1, |log| + 1, {}) == Survivors(log, 1, |log|, {});
  }

  /** The books, last quotes, crossed count and fingerprint that such a consumer
      builds are those of the reference books the publisher fed before any loss,
      once a publisher object that was given the messages of the run has closed
      the bucket. */
  lemma CleanConsumerMatchesGolden(p: FeedPublisher, c: Setup, ws: seq<World>, steps: seq<Step>, n: nat, j: nat)
    requires IsRun(c, ws, steps) && n < |ws| && j < |c.joined|
    requires Shaped(c, ws[n])
    requires ws[n].subs[j].b.done && ws[n].subs[j].r.start == 1 && ws[n].subs[j].b.stats.unrecoverable == 0
    requires |p.buckets| == c.bucketCount && p.stream == PublishedIn(steps, n)
    requires FeedPublisher.Closed(p.buckets[c.joined[j]], Divided(p.stream, c.bucketCount)[c.joined[j]])
    ensures p.buckets[c.joined[j]].golden.State() == Replay(EMPTY_SET, CallbackLog(c, ws, steps, n, j))
  {
    hide IsRun, Replay, RingOf, BookLaws.OfBucket, CallbackLog;
    DoneMeansComplete(c, ws, steps, n, j);
    CleanConsumerComplete(c, ws, steps, n, j);
    LogsDivideAlways(c, ws, steps, n);
    var log, messages := ws[n].logs[c.joined[j]], Divided(p.stream, c.bucketCount)[c.joined[j]];
    assert log == messages + [END_MESSAGE];
    assert log[..|log| - 1] == messages;
  }

  /** The first number is the one configured, when one is. */
  lemma {:induction false} StartAsConfigured(c: Setup, ws: seq<World>, steps: seq<Step>, n: nat, j: nat)
    requires IsRun(c, ws, steps) && n < |ws| && |ws| == |steps| + 1 && j < |c.joined| && c.firstExpected > 0
    ensures |ws[n].subs| == |c.joined| && ws[n].subs[j].b.synced && ws[n].subs[j].r.start == c.firstExpected
    decreases n
  {
    hide After, Enabled, Safe, Shaped;
    if n == 0 {
      assert ws[0] == Start(c);
    } else {
      hide IsRun;
      StartAsConfigured(c, ws, steps, n - 1, j);
      RunStep(c, ws, steps, n - 1);
      StepKeepsStart(c, ws[n - 1], steps[n - 1], j);
    }
  }

  lemma {:induction false} ApplyAllKeepsStart(subs: seq<Tracked>, fs: seq<Frame>, j: nat)
    requires j < |subs|
    ensures ApplyAll(subs, fs)[j].r.start == subs[j].r.start && ApplyAll(subs, fs)[j].b.synced == subs[j].b.synced
    decreases |fs|
  {
    if fs != [] {
      ApplyAllKeepsStart(ApplyOne(subs, fs[0]), fs[1..], j);
    }
  }

  lemma {:induction false} ReleaseKeepsSynced(b: Bucket)
    ensures ReleaseAll(b).0.synced == b.synced
    decreases |b.parked| + |b.gone|
  {
    if ReleaseOne(b).Some? {
      ReleaseShrinks(b);
      ReleaseKeepsSynced(ReleaseOne(b).value.0);
    }
  }

  lemma StepKeepsStart(c: Setup, w: World, step: Step, j: nat)
    requires Shaped(c, w) && Enabled(c, w, step) && j < |w.subs| && w.subs[j].b.synced
    ensures After(c, w, step).subs[j].b.synced && After(c, w, step).subs[j].r.start == w.subs[j].r.start
  {
    ReleaseKeepsSynced(w.subs[j].b);
    StepOnBucket(c, w, step, j);
    hide After, Enabled, Nak, Accept, ParseFrames, ApplyAll, ReleaseAll;
    if step.Read? {
      ApplyAllKeepsStart(w.subs, ParseFrames(w.repair.held + w.down[..step.count]).frames, j);
    }
  }

  /** The datagram that step k hands to bucket j fixes where the bucket starts:
      at its own number, or a backfill before it, but never before 1. */
  ghost predicate SyncsAt(c: Setup, ws: seq<World>, steps: seq<Step>, k: nat, j: nat, start: nat)
    requires k < |steps| && k < |ws| && j < |ws[k].subs| && j < |c.joined|
  {
    && steps[k].Receive? && steps[k].joined == j && !ws[k].subs[j].b.synced
    && DgramDecode(steps[k].datagram).Some?
    && DgramDecode(steps[k].datagram).value.bucket == c.joined[j]
    && var number := DgramDecode(steps[k].datagram).value.sequence;
       start == if c.backfill == 0 then number else if number > c.backfill then number - c.backfill else 1
  }

  lemma BucketSyncs(c: Setup, w: World, step: Step, j: nat)
    requires j < |w.subs| && (step.Read? ==> step.count <= |w.down|) && !w.subs[j].b.synced
    ensures var u := BucketAfter(c, w, step, j);
      u.b.synced ==>
        && step.Receive? && step.joined == j && DgramDecode(step.datagram).Some?
        && DgramDecode(step.datagram).value.bucket == w.subs[j].b.id
        && var number := DgramDecode(step.datagram).value.sequence;
           u.r.start == if c.backfill == 0 then number else if number > c.backfill then number - c.backfill else 1
  {
    hide Nak, ParseFrames, ApplyAll, ReleaseAll, DgramDecode;
    match step
    case Read(count) => ApplyAllKeepsStart(w.subs, ParseFrames(w.repair.held + w.down[..count]).frames, j);
    case Deliver(k) => ReleaseKeepsSynced(w.subs[j].b);
    case Poll(k, connects, writes) => NakKeepsSynced(w.subs[j], w.repair, w.clock, c.timing, connects, writes);
    case _ =>
  }

  lemma NakKeepsSynced(t: Tracked, r: Repair, now: nat, timing: Timing, connects: bool, writes: bool)
    ensures TNak(t, r, now, timing, connects, writes).b.synced == t.b.synced
  {
  }

  lemma OwnId(c: Setup, w: World, j: nat)
    requires Shaped(c, w) && j < |c.joined|
    ensures |w.subs| == |c.joined| && w.subs[j].b.id == c.joined[j]
  {
  }

  lemma StepSyncs(c: Setup, ws: seq<World>, steps: seq<Step>, k: nat, j: nat)
    requires IsRun(c, ws, steps) && k < |steps| && j < |c.joined|
    ensures |ws| == |steps| + 1 && |ws[k].subs| == |ws[k + 1].subs| == |c.joined|
    ensures !ws[k].subs[j].b.synced && ws[k + 1].subs[j].b.synced
        ==> SyncsAt(c, ws, steps, k, j, ws[k + 1].subs[j].r.start)
    ensures ws[k].subs[j].b.synced ==> ws[k + 1].subs[j].b.synced && ws[k + 1].subs[j].r.start == ws[k].subs[j].r.start
  {
    hide IsRun, After, Enabled, Safe, Shaped, DgramDecode, BucketAfter;
    RunShape(c, ws, steps);
    RunStep(c, ws, steps, k);
    var w := ws[k];
    OwnId(c, w, j);
    if w.subs[j].b.synced {
      StepKeepsStart(c, w, steps[k], j);
    } else {
      StepOnBucket(c, w, steps[k], j);
      BucketSyncs(c, w, steps[k], j);
    }
  }

  /** A bucket that joined live starts where one datagram put it: the first it
      was handed, at that datagram's number or a backfill before it; and there
      it starts for the remainder of the run. */
  lemma {:induction false} LiveStart(c: Setup, ws: seq<World>, steps: seq<Step>, n: nat, j: nat)
    requires IsRun(c, ws, steps) && n < |ws| && j < |c.joined| && c.firstExpected == 0
    ensures |ws| == |steps| + 1 && forall k | 0 <= k <= n :: |ws[k].subs| == |c.joined|
    ensures ws[n].subs[j].b.synced ==> exists k: nat | k < n :: SyncsAt(c, ws, steps, k, j, ws[n].subs[j].r.start)
    decreases n
  {
    assert |ws| == |steps| + 1;
    hide After, Enabled, Safe, Shaped, SyncsAt;
    if n == 0 {
      assert ws[0] == Start(c);
    } else {
      hide IsRun;
      LiveStart(c, ws, steps, n - 1, j);
      StepSyncs(c, ws, steps, n - 1, j);
    }
  }
}
