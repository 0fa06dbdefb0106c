// What one turn of the subscriber's driver leaves behind: nothing that was
// queued for a bucket is left out, whichever path it came by.
module TurnLaws {
  import opened Bytes
  import opened Messages
  import opened RepairWire
  import opened Buckets
  import opened Subscribers

  /** The bucket has the message of this number, or went past it. */
  predicate Passed(b: Bucket, s: u64) {
    s < b.next || s in b.parked
  }

  /** The bucket acted on the answer it was sent: the number is no hole any more;
      its message is parked or went out, or it is written off. */
  predicate Resolved(b: Bucket, f: Frame) {
    f.sequence !in b.holes && (Passed(b, f.sequence) || (f.payload.None? && f.sequence in b.gone))
  }

  /** From b to c the bucket forgot nothing about number s. */
  predicate Keeps(b: Bucket, c: Bucket, s: u64) {
    && c.id == b.id && (b.synced ==> c.synced) && (Passed(b, s) ==> Passed(c, s))
    && (s in b.gone ==> s in c.gone || Passed(c, s)) && (s in c.holes ==> s in b.holes)
  }

  lemma FrameKeeps(b: Bucket, f: Frame, s: u64)
    ensures Keeps(b, ApplyFrame(b, f), s)
    ensures Resolved(ApplyFrame(b, f), f)
  {
    FrameExactly(b, f);
    hide ApplyFrame;
  }

  lemma NakKeeps(b: Bucket, r: Repair, now: nat, t: Timing, connects: bool, writes: bool, s: u64)
    ensures Keeps(b, Nak(b, r, now, t, connects, writes).bucket, s)
  {
    hide Batch, Expire;
    ExpireExactly(b, now, t.giveup);
  }

  lemma DeliveryKeeps(b: Bucket, s: u64)
    ensures Keeps(b, ReleaseAll(b).0, s)
  {
    hide ReleaseAll, GoesOut;
    DeliveryStops(b);
    DeliveryExactly(b);
  }

  lemma TickKeeps(b: Bucket, r: Repair, now: nat, t: Timing, connects: bool, writes: bool, s: u64)
    ensures Keeps(b, ReleaseAll(Nak(b, r, now, t, connects, writes).bucket).0, s)
  {
    hide Nak, ReleaseAll, Keeps;
    NakKeeps(b, r, now, t, connects, writes, s);
    var n := Nak(b, r, now, t, connects, writes).bucket;
    DeliveryKeeps(n, s);
    KeepsOn(b, n, ReleaseAll(n).0, s);
  }

  lemma {:induction false} FramesKeep(buckets: seq<Bucket>, fs: seq<Frame>, i: nat, s: u64)
    requires i < |buckets|
    ensures Keeps(buckets[i], ApplyFrames(buckets, fs)[i], s)
    decreases |fs|
  {
    hide ApplyFrame, Passed;
    if fs != [] {
      FrameKeeps(buckets[i], fs[0], s);
      KeepsOn(buckets[i], ApplyTo(buckets, fs[0])[i], ApplyFrames(buckets, fs)[i], s);
      FramesKeep(ApplyTo(buckets, fs[0]), fs[1..], i, s);
    }
  }

  lemma KeepsOn(b: Bucket, c: Bucket, d: Bucket, s: u64)
    ensures Keeps(b, c, s) && Keeps(c, d, s) ==> Keeps(b, d, s)
  {
  }

  /** Bucket i is the first of that id. */
  predicate FirstOf(buckets: seq<Bucket>, id: u16, i: nat) {
    i < |buckets| && buckets[i].id == id && forall k | 0 <= k < i :: buckets[k].id != id
  }

  predicate SameIds(buckets: seq<Bucket>, others: seq<Bucket>) {
    |buckets| == |others| && forall k | 0 <= k < |buckets| :: buckets[k].id == others[k].id
  }

  lemma ApplyToFirst(buckets: seq<Bucket>, f: Frame)
    ensures SameIds(buckets, ApplyTo(buckets, f))
    ensures forall i: nat | FirstOf(buckets, f.bucket, i) :: ApplyTo(buckets, f)[i] == ApplyFrame(buckets[i], f)
  {
    var found := Find(buckets, f.bucket);
    forall i: nat | FirstOf(buckets, f.bucket, i) ensures found == Some(i) {
    }
    if found.Some? {
      FrameKeeps(buckets[found.value], f, 0);
    }
    hide ApplyFrame, Passed;
  }

  /** Every answer is acted on by the bucket it is addressed to. */
  lemma {:induction false} FramesResolve(buckets: seq<Bucket>, fs: seq<Frame>, k: nat, i: nat)
    requires k < |fs| && FirstOf(buckets, fs[k].bucket, i)
    ensures Resolved(ApplyFrames(buckets, fs)[i], fs[k])
    decreases k
  {
    hide ApplyFrame, Passed;
    ApplyToFirst(buckets, fs[0]);
    if k == 0 {
      FrameKeeps(buckets[i], fs[0], fs[0].sequence);
      FramesKeep(ApplyTo(buckets, fs[0]), fs[1..], i, fs[0].sequence);
      StaysResolved(ApplyTo(buckets, fs[0])[i], ApplyFrames(buckets, fs)[i], fs[0]);
    } else {
      assert FirstOf(ApplyTo(buckets, fs[0]), fs[k].bucket, i);
      FramesResolve(ApplyTo(buckets, fs[0]), fs[1..], k - 1, i);
    }
  }

  lemma StaysResolved(b: Bucket, c: Bucket, f: Frame)
    requires Resolved(b, f) && Keeps(b, c, f.sequence)
    ensures Resolved(c, f)
  {
  }

  // ---- datagrams ------------------------------------------------------------------

  lemma AcceptTakes(b: Bucket, d: seq<byte>, now: nat, backfill: nat, s: u64)
    ensures var c := AcceptDatagram(b, d, now, backfill);
      && c.id == b.id && (b.synced && Passed(b, s) ==> c.synced && Passed(c, s))
      && (OwnDatagram(b.id, d) ==> c.synced && Passed(c, DgramDecode(d).value.sequence))
  {
    hide DgramDecode;
    if OwnDatagram(b.id, d) {
      AcceptExactly(b, DgramDecode(d).value.sequence, DgramDecode(d).value.message, now, backfill);
      hide Accept;
    }
  }

  lemma {:induction false} AcceptAllKeeps(b: Bucket, arrivals: seq<Arrival>, backfill: nat, s: u64)
    ensures var c := AcceptAll(b, arrivals, backfill);
      c.id == b.id && (b.synced && Passed(b, s) ==> c.synced && Passed(c, s))
    decreases |arrivals|
  {
    hide AcceptDatagram, Passed;
    if arrivals != [] {
      AcceptTakes(b, arrivals[0].datagram, arrivals[0].at, backfill, s);
      AcceptAllKeeps(AcceptDatagram(b, arrivals[0].datagram, arrivals[0].at, backfill), arrivals[1..], backfill, s);
    }
  }

  /** Every datagram of the bucket's own is taken in. */
  lemma {:induction false} AcceptAllTakes(b: Bucket, arrivals: seq<Arrival>, backfill: nat, k: nat)
    requires k < |arrivals| && OwnDatagram(b.id, arrivals[k].datagram)
    ensures var c := AcceptAll(b, arrivals, backfill);
      c.synced && Passed(c, DgramDecode(arrivals[k].datagram).value.sequence)
    decreases k
  {
    hide AcceptDatagram, Passed, DgramDecode;
    var c := AcceptDatagram(b, arrivals[0].datagram, arrivals[0].at, backfill);
    AcceptTakes(b, arrivals[0].datagram, arrivals[0].at, backfill, 0);
    if k == 0 {
      AcceptAllKeeps(c, arrivals[1..], backfill, DgramDecode(arrivals[0].datagram).value.sequence);
    } else {
      AcceptAllTakes(c, arrivals[1..], backfill, k - 1);
    }
  }

  function OwnSequence(id: u16, datagram: seq<byte>): (s: u64)
    requires OwnDatagram(id, datagram)
    ensures s == DgramDecode(datagram).value.sequence
  {
    DgramDecode(datagram).value.sequence
  }

  // ---- the whole turn -------------------------------------------------------------

  lemma {:induction false} TicksKeep(s: SubscriberState, n: nat, times: seq<nat>, t: Timing, connects: nat -> bool,
                                     writes: nat -> bool, i: nat, x: u64)
    requires n <= |s.buckets| == |times| && i < |s.buckets|
    ensures Keeps(s.buckets[i], TickedAll(s, n, times, t, connects, writes).0.buckets[i], x)
    decreases n
  {
    hide Nak, ReleaseAll, Passed;
    if n > 0 {
      TicksKeep(s, n - 1, times, t, connects, writes, i, x);
      var before := TickedAll(s, n - 1, times, t, connects, writes).0;
      TickKeeps(before.buckets[n - 1], before.repair, times[n - 1], t, connects(n - 1), writes(n - 1), x);
      KeepsOn(s.buckets[i], before.buckets[i], TickedAll(s, n, times, t, connects, writes).0.buckets[i], x);
    }
  }

  /** After a turn, whatever the network did: of every datagram of its own that
      was queued on its socket a bucket has the message, or went past it; and if
      the repair connection was up and did not turn out closed, every complete
      answer that was read was acted on by the bucket it is addressed to. */
  lemma TurnTakesAll(s: SubscriberState, arrivals: seq<seq<Arrival>>, arrived: seq<byte>, ended: bool,
                     times: seq<nat>, t: Timing, backfill: nat, connects: nat -> bool, writes: nat -> bool, i: nat)
    requires |arrivals| == |s.buckets| == |times| && i < |s.buckets|
    ensures var after := Pumped(s, arrivals, arrived, ended, times, t, backfill, connects, writes).0;
      var b := after.buckets[i];
      && |after.buckets| == |s.buckets|
      && (forall k | 0 <= k < |arrivals[i]| && OwnDatagram(s.buckets[i].id, arrivals[i][k].datagram) ::
            b.synced && Passed(b, DgramDecode(arrivals[i][k].datagram).value.sequence))
      && (s.repair.open && !ended ==> var answers := ParseFrames(s.repair.held + arrived).frames;
            forall k | 0 <= k < |answers| && FirstOf(s.buckets, answers[k].bucket, i) :: Resolved(b, answers[k]))
  {
    hide AcceptAll, ApplyFrames, TickedAll, ParseFrames, Passed, DgramDecode, OwnDatagram;
    var received := s.(buckets := ReceivedAll(s.buckets, arrivals, backfill));
    var drained :=
      if !received.repair.open then received else if ended then Disconnected(received) else Drained(received, arrived);
    var after := TickedAll(drained, |times|, times, t, connects, writes).0;
    forall k | 0 <= k < |s.buckets| ensures received.buckets[k].id == s.buckets[k].id {
      AcceptAllKeeps(s.buckets[k], arrivals[k], backfill, 0);
    }
    var answers := ParseFrames(s.repair.held + arrived).frames;
    forall k | 0 <= k < |arrivals[i]| && OwnDatagram(s.buckets[i].id, arrivals[i][k].datagram)
      ensures after.buckets[i].synced
      ensures Passed(after.buckets[i], OwnSequence(s.buckets[i].id, arrivals[i][k].datagram))
    {
      var x := OwnSequence(s.buckets[i].id, arrivals[i][k].datagram);
      AcceptAllTakes(s.buckets[i], arrivals[i], backfill, k);
      FramesKeep(received.buckets, answers, i, x);
      TicksKeep(drained, |times|, times, t, connects, writes, i, x);
    }
    if s.repair.open && !ended {
      forall k | 0 <= k < |answers| && FirstOf(s.buckets, answers[k].bucket, i)
        ensures Resolved(after.buckets[i], answers[k])
      {
        assert FirstOf(received.buckets, answers[k].bucket, i);
        FramesResolve(received.buckets, answers, k, i);
        TicksKeep(drained, |times|, times, t, connects, writes, i, answers[k].sequence);
        StaysResolved(drained.buckets[i], after.buckets[i], answers[k]);
      }
    }
  }

  // ---- which path a message is counted on -----------------------------------------

  lemma {:induction false} AcceptAllRepaired(b: Bucket, arrivals: seq<Arrival>, backfill: nat)
    ensures AcceptAll(b, arrivals, backfill).stats.repaired == b.stats.repaired
    decreases |arrivals|
  {
    hide DgramDecode;
    if arrivals != [] {
      AcceptAllRepaired(AcceptDatagram(b, arrivals[0].datagram, arrivals[0].at, backfill), arrivals[1..], backfill);
    }
  }

  lemma {:induction false} ReleaseRepaired(b: Bucket)
    ensures ReleaseAll(b).0.stats.repaired == b.stats.repaired
    decreases |b.parked| + |b.gone|
  {
    hide ReleaseAll, ReleaseOne;
    ReleaseOneExactly(b);
    ReleaseFirst(b);
    if ReleaseOne(b).Some? {
      ReleaseRepaired(ReleaseOne(b).value.0);
    }
  }

  lemma {:induction false} TicksRepaired(s: SubscriberState, n: nat, times: seq<nat>, t: Timing,
                                         connects: nat -> bool, writes: nat -> bool, i: nat)
    requires n <= |s.buckets| == |times| && i < |s.buckets|
    ensures TickedAll(s, n, times, t, connects, writes).0.buckets[i].stats.repaired == s.buckets[i].stats.repaired
    decreases n
  {
    hide Nak, ReleaseAll;
    if n > 0 {
      TicksRepaired(s, n - 1, times, t, connects, writes, i);
      var before := TickedAll(s, n - 1, times, t, connects, writes).0;
      var b := before.buckets[n - 1];
      NakOnCounters(b, before.repair, times[n - 1], t, connects(n - 1), writes(n - 1));
      ReleaseRepaired(Nak(b, before.repair, times[n - 1], t, connects(n - 1), writes(n - 1)).bucket);
    }
  }

  /** The bucket has, or passed, every message these answers bring it. */
  predicate AllPassed(b: Bucket, buckets: seq<Bucket>, answers: seq<Frame>, i: nat) {
    forall k | 0 <= k < |answers| && answers[k].payload.Some? && FirstOf(buckets, answers[k].bucket, i) ::
      Passed(b, answers[k].sequence)
  }

  lemma {:induction false} FramesUncounted(buckets: seq<Bucket>, fs: seq<Frame>, i: nat)
    requires i < |buckets| && AllPassed(buckets[i], buckets, fs, i)
    ensures ApplyFrames(buckets, fs)[i].stats == buckets[i].stats
    decreases |fs|
  {
    hide ApplyFrame, Passed;
    if fs != [] {
      var next := ApplyTo(buckets, fs[0]);
      ApplyToFirst(buckets, fs[0]);
      FirstUncounted(buckets, fs[0], i);
      forall k | 0 <= k < |fs| - 1 && fs[1..][k].payload.Some? && FirstOf(next, fs[1..][k].bucket, i)
        ensures Passed(next[i], fs[1..][k].sequence)
      {
        assert fs[k + 1] == fs[1..][k] && FirstOf(buckets, fs[k + 1].bucket, i);
        FrameKeeps(buckets[i], fs[0], fs[k + 1].sequence);
      }
      FramesUncounted(next, fs[1..], i);
    }
  }

  lemma FirstUncounted(buckets: seq<Bucket>, f: Frame, i: nat)
    requires i < |buckets| && (f.payload.Some? && FirstOf(buckets, f.bucket, i) ==> Passed(buckets[i], f.sequence))
    ensures ApplyTo(buckets, f)[i].stats == buckets[i].stats
    ensures ApplyTo(buckets, f)[i] == buckets[i] || ApplyTo(buckets, f)[i] == ApplyFrame(buckets[i], f)
  {
    FrameExactly(buckets[i], f);
    hide ApplyFrame;
  }

  /** An own datagram of that number. */
  predicate Brings(id: u16, datagram: seq<byte>, s: u64) {
    OwnDatagram(id, datagram) && DgramDecode(datagram).value.sequence == s
  }

  /** Own datagrams of that number are among those on the socket. */
  predicate OnSocket(id: u16, arrivals: seq<Arrival>, s: u64) {
    exists l :: 0 <= l < |arrivals| && Brings(id, arrivals[l].datagram, s)
  }

  /** Every repair among the answers to bucket i is of such a number. */
  predicate AllOnSocket(buckets: seq<Bucket>, arrivals: seq<Arrival>, answers: seq<Frame>, i: nat) {
    forall k | 0 <= k < |answers| && answers[k].payload.Some? && FirstOf(buckets, answers[k].bucket, i) ::
      OnSocket(buckets[i].id, arrivals, answers[k].sequence)
  }

  lemma SocketPasses(b: Bucket, arrivals: seq<Arrival>, backfill: nat, s: u64)
    requires OnSocket(b.id, arrivals, s)
    ensures Passed(AcceptAll(b, arrivals, backfill), s)
  {
    hide AcceptAll, Passed, DgramDecode;
    var l :| 0 <= l < |arrivals| && Brings(b.id, arrivals[l].datagram, s);
    AcceptAllTakes(b, arrivals, backfill, l);
  }

  /** A datagram beats the repair of its message when both come in one turn: the
      sockets are read first, so a bucket whose repairs are all of numbers it has
      own datagrams of in that turn counts none of them repaired. */
  lemma DatagramsFirst(s: SubscriberState, arrivals: seq<seq<Arrival>>, arrived: seq<byte>, times: seq<nat>,
                       t: Timing, backfill: nat, connects: nat -> bool, writes: nat -> bool, i: nat)
    requires |arrivals| == |s.buckets| == |times| && i < |s.buckets|
    requires AllOnSocket(s.buckets, arrivals[i], ParseFrames(s.repair.held + arrived).frames, i)
    ensures var after := Pumped(s, arrivals, arrived, false, times, t, backfill, connects, writes).0;
      |after.buckets| == |s.buckets| && after.buckets[i].stats.repaired == s.buckets[i].stats.repaired
  {
    hide AcceptAll, ApplyFrames, TickedAll, ParseFrames, Passed, OnSocket;
    var received := s.(buckets := ReceivedAll(s.buckets, arrivals, backfill));
    var drained := if !received.repair.open then received else Drained(received, arrived);
    forall k | 0 <= k < |s.buckets| ensures received.buckets[k].id == s.buckets[k].id {
      AcceptAllKeeps(s.buckets[k], arrivals[k], backfill, 0);
    }
    var answers := ParseFrames(s.repair.held + arrived).frames;
    forall k | 0 <= k < |answers| && answers[k].payload.Some? && FirstOf(received.buckets, answers[k].bucket, i)
      ensures Passed(received.buckets[i], answers[k].sequence)
    {
      assert FirstOf(s.buckets, answers[k].bucket, i);
      SocketPasses(s.buckets[i], arrivals[i], backfill, answers[k].sequence);
    }
    FramesUncounted(received.buckets, answers, i);
    AcceptAllRepaired(s.buckets[i], arrivals[i], backfill);
    TicksRepaired(drained, |times|, times, t, connects, writes, i);
  }
}
