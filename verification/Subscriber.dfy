// The receiving side: the buckets joined, the one repair connection that
// serves them all, and its fixed reassembly buffer.
module Subscribers {
  import opened Bytes
  import opened Collections
  import opened Messages
  import opened RepairWire
  import opened Buckets

  datatype SubscriberState = SubscriberState(buckets: seq<Bucket>, repair: Repair)

  /** Reading `arrived` from the repair connection: complete frames are applied
      and an unfinished one is kept; a frame of impossible length ends the
      connection and keeps nothing. */
  function Drained(s: SubscriberState, arrived: seq<byte>): SubscriberState {
    var p := ParseFrames(s.repair.held + arrived);
    SubscriberState(ApplyFrames(s.buckets, p.frames),
                    if p.bad then s.repair.(open := false, held := []) else s.repair.(held := p.rest))
  }

  function Disconnected(s: SubscriberState): SubscriberState {
    s.(repair := s.repair.(open := false, held := []))
  }

  /** A datagram taken off a socket, and the clock reading it is handled at. */
  datatype Arrival = Arrival(at: nat, datagram: seq<byte>)

  /** The clock never runs backwards. */
  predicate Runs(from: nat, arrivals: seq<Arrival>)
    decreases |arrivals|
  {
    arrivals != [] ==> from <= arrivals[0].at && Runs(arrivals[0].at, arrivals[1..])
  }

  function LastAt(from: nat, arrivals: seq<Arrival>): nat
    decreases |arrivals|
  {
    if arrivals == [] then from else LastAt(arrivals[0].at, arrivals[1..])
  }

  predicate AllRun(from: nat, arrivals: seq<seq<Arrival>>)
    decreases |arrivals|
  {
    arrivals != [] ==> Runs(from, arrivals[0]) && AllRun(LastAt(from, arrivals[0]), arrivals[1..])
  }

  function LastOf(from: nat, arrivals: seq<seq<Arrival>>): nat
    decreases |arrivals|
  {
    if arrivals == [] then from else LastOf(LastAt(from, arrivals[0]), arrivals[1..])
  }

  predicate TimesRun(from: nat, times: seq<nat>) {
    (forall i | 0 <= i < |times| :: from <= times[i]) && (forall i, j | 0 <= i < j < |times| :: times[i] <= times[j])
  }

  function AcceptAll(b: Bucket, arrivals: seq<Arrival>, backfill: nat): Bucket
    decreases |arrivals|
  {
    if arrivals == [] then b
    else AcceptAll(AcceptDatagram(b, arrivals[0].datagram, arrivals[0].at, backfill), arrivals[1..], backfill)
  }

  /** The datagram decodes, and is the bucket's. */
  predicate OwnDatagram(id: u16, datagram: seq<byte>) {
    DgramDecode(datagram).Some? && DgramDecode(datagram).value.bucket == id
  }

  /** How many of the datagrams decode and are the bucket's. */
  function OwnAmong(id: u16, arrivals: seq<Arrival>): nat
    decreases |arrivals|
  {
    if arrivals == [] then 0
    else (if OwnDatagram(id, arrivals[0].datagram) then 1 else 0) + OwnAmong(id, arrivals[1..])
  }

  /** How many of all the datagrams decode and are those of the socket's own
      bucket; only the first n sockets count. */
  function OwnOnSockets(buckets: seq<Bucket>, arrivals: seq<seq<Arrival>>, n: nat): nat
    requires n <= |arrivals| == |buckets|
  {
    if n == 0 then 0 else OwnOnSockets(buckets, arrivals, n - 1) + OwnAmong(buckets[n - 1].id, arrivals[n - 1])
  }

  /** A datagram that does not decode, or is some other bucket's, is ignored. */
  function AcceptDatagram(b: Bucket, datagram: seq<byte>, now: nat, backfill: nat): Bucket {
    match DgramDecode(datagram)
    case None => b
    case Some(d) => if d.bucket != b.id then b else Accept(b, d.sequence, d.message, now, backfill)
  }

  /** Every bucket after its own socket was read dry. */
  function ReceivedAll(buckets: seq<Bucket>, arrivals: seq<seq<Arrival>>, backfill: nat): (r: seq<Bucket>)
    requires |arrivals| == |buckets|
    ensures |r| == |buckets|
  {
    seq(|buckets|, i requires 0 <= i < |buckets| => AcceptAll(buckets[i], arrivals[i], backfill))
  }

  /** A tick and a delivery of one bucket, and what its callback is handed. */
  function Ticked(s: SubscriberState, i: nat, now: nat, t: Timing, connects: bool, writes: bool)
    : (r: (SubscriberState, seq<OrderMessage>))
    requires i < |s.buckets|
    ensures |r.0.buckets| == |s.buckets|
  {
    var n := Nak(s.buckets[i], s.repair, now, t, connects, writes);
    var (b, released) := ReleaseAll(n.bucket);
    (SubscriberState(s.buckets[i := b], n.repair), Handed(released))
  }

  /** The first n buckets, one after another: each finds the repair connection
      as the one before left it. */
  function TickedAll(s: SubscriberState, n: nat, times: seq<nat>, t: Timing, connects: nat -> bool, writes: nat -> bool)
    : (r: (SubscriberState, seq<seq<OrderMessage>>))
    requires n <= |s.buckets| == |times|
    ensures |r.0.buckets| == |s.buckets| && |r.1| == n
  {
    if n == 0 then (s, []) else
      var (before, handed) := TickedAll(s, n - 1, times, t, connects, writes);
      var (after, out) := Ticked(before, n - 1, times[n - 1], t, connects(n - 1), writes(n - 1));
      (after, handed + [out])
  }

  /** One turn of the driver. */
  function Pumped(s: SubscriberState, arrivals: seq<seq<Arrival>>, arrived: seq<byte>, ended: bool, times: seq<nat>,
                  t: Timing, backfill: nat, connects: nat -> bool, writes: nat -> bool)
    : (SubscriberState, seq<seq<OrderMessage>>)
    requires |arrivals| == |s.buckets| == |times|
  {
    var received := s.(buckets := ReceivedAll(s.buckets, arrivals, backfill));
    var drained :=
      if !received.repair.open then received else if ended then Disconnected(received) else Drained(received, arrived);
    TickedAll(drained, |drained.buckets|, times, t, connects, writes)
  }

  lemma {:induction false} ApplyFramesAppend(buckets: seq<Bucket>, p: seq<Frame>, q: seq<Frame>)
    ensures ApplyFrames(buckets, p + q) == ApplyFrames(ApplyFrames(buckets, p), q)
    decreases |p|
  {
    if p == [] {
      assert p + q == q;
    } else {
      assert (p + q)[1..] == p[1..] + q;
      ApplyFramesAppend(ApplyTo(buckets, p[0]), p[1..], q);
    }
  }

  /** Two reads of an open connection leave the subscriber where one read of
      all the bytes would: unless the first ends the connection, and then the
      bytes behind it would have changed nothing. */
  lemma DrainedInPieces(s: SubscriberState, x: seq<byte>, y: seq<byte>)
    ensures var first := ParseFrames(s.repair.held + x);
      Drained(s, x + y) == if first.bad then Drained(s, x) else Drained(Drained(s, x), y)
  {
    hide ParseFrames, ApplyFrames;
    var held := s.repair.held;
    assert held + (x + y) == held + x + y;
    if ParseFrames(held + x).bad {
      BadStays(held + x, y);
    } else {
      ParseInPieces(held + x, y);
      ApplyFramesAppend(s.buckets, ParseFrames(held + x).frames, ParseFrames(ParseFrames(held + x).rest + y).frames);
    }
  }

  /** Reading chunk after chunk, for as long as the connection is up. */
  function DrainedAll(s: SubscriberState, chunks: seq<seq<byte>>): SubscriberState
    decreases |chunks|
  {
    if chunks == [] || !s.repair.open then s else DrainedAll(Drained(s, chunks[0]), chunks[1..])
  }

  /** However the bytes of a connection are cut into reads and drain calls, the
      buckets and the bytes kept are those of one read of all of them. */
  lemma {:induction false} DrainsIgnoreCuts(s: SubscriberState, chunks: seq<seq<byte>>)
    requires s.repair.open && !Complete(s.repair.held)
    ensures DrainedAll(s, chunks) == Drained(s, Joined(chunks))
    decreases |chunks|
  {
    hide ParseFrames, Drained;
    if chunks == [] {
      DrainedNothing(s);
    } else {
      var first := ParseFrames(s.repair.held + chunks[0]);
      DrainedInPieces(s, chunks[0], Joined(chunks[1..]));
      DrainedLeaves(s, chunks[0]);
      if !first.bad {
        DrainsIgnoreCuts(Drained(s, chunks[0]), chunks[1..]);
      }
    }
  }

  lemma DrainedNothing(s: SubscriberState)
    requires !Complete(s.repair.held)
    ensures Drained(s, []) == s
  {
    assert s.repair.held + [] == s.repair.held;
  }

  lemma DrainedLeaves(s: SubscriberState, x: seq<byte>)
    ensures var p, r := ParseFrames(s.repair.held + x), Drained(s, x).repair;
      if p.bad then !r.open else r.open == s.repair.open && !Complete(r.held)
  {
    hide ApplyFrames;
  }

  ghost predicate AllOrderly(buckets: seq<Bucket>, clock: nat) {
    forall i | 0 <= i < |buckets| :: Orderly(buckets[i]) && StampedBy(buckets[i], clock)
  }

  lemma ApplyToOrderly(buckets: seq<Bucket>, f: Frame, clock: nat)
    requires AllOrderly(buckets, clock)
    ensures AllOrderly(ApplyTo(buckets, f), clock)
  {
    var i := Find(buckets, f.bucket);
    if i.Some? {
      FrameOrderly(buckets[i.value], f, clock);
    }
  }

  /** The eligible holes among some numbers, in the order given. */
  function OnlyWanted(order: seq<u64>, holes: map<u64, Hole>, now: nat, t: Timing): seq<u64>
    decreases |order|
  {
    if order == [] then [] else
      var rest := OnlyWanted(order[1..], holes, now, t);
      if Wanted(holes, order[0], now, t) then [order[0]] + rest else rest
  }

  lemma {:induction false} OnlyWantedAscends(order: seq<u64>, holes: map<u64, Hole>, now: nat, t: Timing)
    requires StrictlyAscending(order)
    ensures StrictlyAscending(OnlyWanted(order, holes, now, t))
    ensures forall s :: s in OnlyWanted(order, holes, now, t) <==> s in order && Wanted(holes, s, now, t)
    decreases |order|
  {
    if order != [] {
      var rest := OnlyWanted(order[1..], holes, now, t);
      OnlyWantedAscends(order[1..], holes, now, t);
      assert forall s :: s in order <==> s == order[0] || s in order[1..];
      forall k | 0 <= k < |rest| ensures order[0] < rest[k] {
        assert rest[k] in rest && rest[k] in order[1..];
      }
    }
  }

  /** Walking the holes in order and keeping the eligible ones lists exactly
      the eligible holes in order. */
  lemma EligibleInOrder(b: Bucket, now: nat, t: Timing)
    ensures OnlyWanted(Sequences(b.holes.Keys), b.holes, now, t) == Sequences(EligibleHoles(b, now, t))
  {
    OnlyWantedAscends(Sequences(b.holes.Keys), b.holes, now, t);
    AscendingUnique(OnlyWanted(Sequences(b.holes.Keys), b.holes, now, t), Sequences(EligibleHoles(b, now, t)));
  }

  class Subscriber {
    var buckets: seq<Bucket>
    var open: bool
    const buffer: array<byte>
    var held: nat
    var blockedUntil: nat
    var datagramsSeen: nat
    const timing: Timing
    const backfill: nat
    /** The latest clock reading; the clock never runs backwards. */
    ghost var clock: nat

    function State(): SubscriberState
      requires held <= buffer.Length
      reads this, buffer
    {
      SubscriberState(buckets, Repair(open, buffer[..held], blockedUntil))
    }

    ghost predicate Valid()
      reads this, buffer
    {
      && buffer.Length == REPAIR_BUF_CAP
      && held < REPAIR_BUF_CAP
      && !Complete(buffer[..held])
      && (!open ==> held == 0)
      && AllOrderly(buckets, clock)
    }

    constructor (ids: seq<u16>, firstExpected: nat, backfill: nat, timing: Timing)
      ensures Valid() && fresh(buffer)
      ensures this.timing == timing && this.backfill == (if firstExpected > 0 then 0 else backfill)
      ensures |buckets| == |ids| && forall i | 0 <= i < |ids| :: buckets[i] == NewBucket(ids[i], firstExpected)
      ensures State().repair == Repair(false, [], 0) && clock == 0
    {
      this.timing := timing;
      this.backfill := if firstExpected > 0 then 0 else backfill;
      buffer := new byte[REPAIR_BUF_CAP](i => 0);
      open, held, blockedUntil, datagramsSeen, clock := false, 0, 0, 0, 0;
      buckets := seq(|ids|, i requires 0 <= i < |ids| => NewBucket(ids[i], firstExpected));
    }

    /** Drops the connection, and with it the half-frame held. */
    method ResetRepair()
      requires held <= buffer.Length
      modifies this`open, this`held
      ensures held == 0 && !open && State() == Disconnected(old(State()))
    {
      open := false;
      held := 0;
      assert buffer[..held] == [];
    }

    /** Parks a message and opens a hole for every number it skipped. */
    method AcceptOrderMessage(i: nat, sequence: u64, m: OrderMessage, now: nat)
      requires Valid() && i < |buckets| && clock <= now
      modifies this`buckets, this`clock
      ensures Valid() && clock == now
      ensures State()
          == old(State()).(buckets := old(buckets)[i := Accept(old(buckets)[i], sequence, m, now, backfill)])
      ensures buckets[i].next
          == if old(buckets)[i].synced then old(buckets)[i].next else if backfill == 0 then sequence
             else if sequence > backfill then sequence - backfill else 1
    {
      ghost var was := buckets[i];
      clock := now;
      StampsAge(buckets, old(clock), now);
      AcceptOrderly(was, sequence, m, now, backfill);
      ReplaceOrderly(buckets, i, Accept(was, sequence, m, now, backfill), now);
      hide AllOrderly;
      var b := buckets[i];
      if !b.synced {
        var start: nat := sequence;
        if backfill != 0 {
          start := if sequence > backfill then sequence - backfill else 1;
        }
        b := b.(next := start, synced := true);
      }
      if sequence < b.next || sequence in b.parked {
        b := b.(stats := b.stats.(duplicates := b.stats.duplicates + 1));
        buckets := buckets[i := b];
        return;
      }
      var holes := OpenHoles(b, sequence, now);
      b := b.(holes := holes - {sequence}, parked := b.parked[sequence := m]);
      buckets := buckets[i := b];
    }

    /** The holes of a bucket and those below `upTo` that are noticed now. */
    static function HolesUpTo(b: Bucket, upTo: nat, now: nat): map<u64, Hole> {
      b.holes + map s: u64 | b.next <= s < upTo && !Known(b, s) :: Hole(now, 0)
    }

    static lemma OneMoreMissing(b: Bucket, missing: u64, now: nat)
      requires b.next <= missing
      ensures missing in HolesUpTo(b, missing, now) <==> missing in b.holes
      ensures var holes := HolesUpTo(b, missing, now);
        HolesUpTo(b, missing + 1, now) == if Known(b, missing) then holes else holes[missing := Hole(now, 0)]
    {
    }

    static lemma NoneMissing(b: Bucket, now: nat)
      ensures HolesUpTo(b, b.next, now) == b.holes
    {
    }

    /** Notices every number from the release point up to `sequence` that is
        not accounted for. */
    static method OpenHoles(b: Bucket, sequence: u64, now: nat) returns (holes: map<u64, Hole>)
      requires b.next <= sequence
      ensures holes == HolesUpTo(b, sequence, now)
    {
      hide HolesUpTo;
      holes := b.holes;
      NoneMissing(b, now);
      for missing := b.next to sequence
        invariant holes == HolesUpTo(b, missing, now)
      {
        OneMoreMissing(b, missing, now);
        if missing !in b.parked && missing !in holes && missing !in b.gone {
          holes := holes[missing := Hole(now, 0)];
        }
      }
    }

    static lemma FirstArrival(b: Bucket, from: nat, arrivals: seq<Arrival>, backfill: nat)
      requires arrivals != [] && Runs(from, arrivals)
      ensures from <= arrivals[0].at && Runs(arrivals[0].at, arrivals[1..])
      ensures LastAt(from, arrivals) == LastAt(arrivals[0].at, arrivals[1..])
      ensures AcceptAll(b, arrivals, backfill)
           == AcceptAll(AcceptDatagram(b, arrivals[0].datagram, arrivals[0].at, backfill), arrivals[1..], backfill)
      ensures AcceptDatagram(b, arrivals[0].datagram, arrivals[0].at, backfill).id == b.id
      ensures OwnAmong(b.id, arrivals)
           == (if OwnDatagram(b.id, arrivals[0].datagram) then 1 else 0) + OwnAmong(b.id, arrivals[1..])
    {
      KeepsId(b, arrivals[0].datagram, arrivals[0].at, backfill);
      hide AcceptDatagram;
    }

    static lemma KeepsId(b: Bucket, datagram: seq<byte>, now: nat, backfill: nat)
      ensures AcceptDatagram(b, datagram, now, backfill).id == b.id
    {
      hide DgramDecode;
    }

    /** Takes one datagram off the socket of bucket i. */
    method TakeDatagram(i: nat, a: Arrival)
      requires Valid() && i < |buckets| && clock <= a.at
      modifies this`buckets, this`clock, this`datagramsSeen
      ensures Valid() && clock == a.at
      ensures datagramsSeen == old(datagramsSeen) + (if OwnDatagram(old(buckets)[i].id, a.datagram) then 1 else 0)
      ensures buckets == old(buckets)[i := AcceptDatagram(old(buckets)[i], a.datagram, a.at, backfill)]
      ensures State() == old(State()).(buckets := buckets)
    {
      StampsAge(buckets, clock, a.at);
      hide AllOrderly, Accept, DgramDecode, Complete;
      match DgramDecode(a.datagram) {
        case Some(d) =>
          if d.bucket == buckets[i].id {
            datagramsSeen := datagramsSeen + 1;
            AcceptOrderMessage(i, d.sequence, d.message, a.at);
          }
        case None =>
      }
      clock := a.at;
    }

    /** Takes everything queued on one bucket's socket. */
    method DrainUdp(i: nat, arrivals: seq<Arrival>)
      requires Valid() && i < |buckets| && Runs(clock, arrivals)
      modifies this`buckets, this`clock, this`datagramsSeen
      ensures Valid() && clock == LastAt(old(clock), arrivals)
      ensures datagramsSeen == old(datagramsSeen) + OwnAmong(old(buckets)[i].id, arrivals)
      ensures State() == old(State()).(buckets := old(buckets)[i := AcceptAll(old(buckets)[i], arrivals, backfill)])
    {
      ghost var was, b0 := State(), buckets[i];
      assert was.buckets[i := b0] == was.buckets;
      assert LastAt(clock, arrivals[|arrivals|..]) == clock && OwnAmong(b0.id, arrivals[|arrivals|..]) == 0;
      hide AllOrderly, AcceptDatagram, AcceptAll, Runs, LastAt, OwnAmong, OwnDatagram, Complete;
      for k := 0 to |arrivals|
        invariant Valid() && |buckets| == |was.buckets|
        invariant Runs(clock, arrivals[k..]) && LastAt(clock, arrivals[k..]) == LastAt(old(clock), arrivals)
        invariant State() == was.(buckets := was.buckets[i := buckets[i]])
        invariant AcceptAll(buckets[i], arrivals[k..], backfill) == AcceptAll(b0, arrivals, backfill)
        invariant buckets[i].id == b0.id
        invariant datagramsSeen + OwnAmong(b0.id, arrivals[k..]) == old(datagramsSeen) + OwnAmong(b0.id, arrivals)
      {
        assert arrivals[k..][0] == arrivals[k] && arrivals[k..][1..] == arrivals[k + 1..];
        FirstArrival(buckets[i], clock, arrivals[k..], backfill);
        TakeDatagram(i, arrivals[k]);
      }
      EmptyAccepted(buckets[i], arrivals[|arrivals|..], backfill);
    }

    static lemma EmptyAccepted(b: Bucket, arrivals: seq<Arrival>, backfill: nat)
      requires arrivals == []
      ensures AcceptAll(b, arrivals, backfill) == b
    {
    }

    static lemma StampsAge(buckets: seq<Bucket>, clock: nat, now: nat)
      requires AllOrderly(buckets, clock) && clock <= now
      ensures AllOrderly(buckets, now)
    {
    }

    /** The expiry loop: from the lowest hole up, stopping at the first live
        one. It moves to `gone` what a scan of every hole would. */
    static method ExpireHoles(b: Bucket, now: nat, giveup: nat) returns (e: Bucket)
      requires NoticedInOrder(b)
      ensures e == Expire(b, now, giveup)
    {
      var gone, holes := b.gone, b.holes;
      ghost var late: set<u64> := {};
      while holes != map[]
        invariant holes == b.holes - late && gone == b.gone + late
        invariant late <= Expired(b, now, giveup)
        decreases |holes|
      {
        var first: u64 := MinOf(holes.Keys);
        if now - holes[first].noticed <= giveup {
          break;
        }
        OneMoreLate(b, holes, late, first, now, giveup);
        gone := gone + {first};
        holes := holes - {first};
        late := late + {first};
      }
      NothingLateLeft(b, holes, late, now, giveup);
      e := b.(gone := gone, holes := holes);
    }

    static lemma OneMoreLate(b: Bucket, holes: map<u64, Hole>, late: set<u64>, first: u64, now: nat, giveup: nat)
      requires holes == b.holes - late && late <= Expired(b, now, giveup)
      requires first in holes && now - holes[first].noticed > giveup
      ensures holes - {first} == b.holes - (late + {first})
      ensures b.gone + late + {first} == b.gone + (late + {first})
      ensures late + {first} <= Expired(b, now, giveup)
      ensures |holes - {first}| < |holes|
    {
      assert (holes - {first}).Keys == holes.Keys - {first};
    }

    static lemma NothingLateLeft(b: Bucket, holes: map<u64, Hole>, late: set<u64>, now: nat, giveup: nat)
      requires NoticedInOrder(b) && holes == b.holes - late && late <= Expired(b, now, giveup)
      requires holes == map[] || now - holes[MinOf(holes.Keys)].noticed <= giveup
      ensures late == Expired(b, now, giveup)
    {
      var rest := b.(holes := holes);
      if holes != map[] {
        LateHolesFirst(rest, now, giveup);
      }
      forall s | s in Expired(b, now, giveup) ensures s in late {
        assert s in holes ==> s in Expired(rest, now, giveup);
      }
    }

    static method CollectBatch(b: Bucket, now: nat, t: Timing) returns (batch: seq<u64>)
      ensures batch == Batch(b, now, t)
      ensures forall s | s in batch ::
                s in b.holes && (if b.holes[s].asked == 0 then now - b.holes[s].noticed > t.nakDelay
                                 else now - b.holes[s].asked > t.nakRepeat)
      ensures forall s | s in b.holes && s !in batch
                && (if b.holes[s].asked == 0 then now - b.holes[s].noticed > t.nakDelay
                    else now - b.holes[s].asked > t.nakRepeat) ::
                |batch| == MAX_REPAIR_BATCH && forall k | 0 <= k < |batch| :: batch[k] < s
    {
      hide Batch, Eligible, EligibleHoles, OnlyWanted;
      BatchExactly(b, now, t);
      var order := Sequences(b.holes.Keys);
      CollectedIs(b, now, t);
      batch := TakeEligible(order, b.holes, now, t);
    }

    static lemma CollectedIs(b: Bucket, now: nat, t: Timing)
      ensures FirstBatch(OnlyWanted(Sequences(b.holes.Keys), b.holes, now, t)) == Batch(b, now, t)
    {
      EligibleInOrder(b, now, t);
    }

    /** The batching loop: over the holes in order, stopping at a full batch. */
    static method TakeEligible(order: seq<u64>, holes: map<u64, Hole>, now: nat, t: Timing) returns (batch: seq<u64>)
      requires forall i | 0 <= i < |order| :: order[i] in holes
      ensures batch == FirstBatch(OnlyWanted(order, holes, now, t))
    {
      ghost var all := OnlyWanted(order, holes, now, t);
      batch := [];
      var i := 0;
      while i < |order| && |batch| < MAX_REPAIR_BATCH
        invariant 0 <= i <= |order| && |batch| <= MAX_REPAIR_BATCH
        invariant batch + OnlyWanted(order[i..], holes, now, t) == all
      {
        OneMoreWanted(batch, order, i, holes, now, t);
        if Eligible(holes[order[i]], now, t) {
          batch := batch + [order[i]];
        }
        i := i + 1;
      }
      FullOrAll(batch, OnlyWanted(order[i..], holes, now, t), all);
    }

    static lemma OneMoreWanted(batch: seq<u64>, order: seq<u64>, i: nat, holes: map<u64, Hole>, now: nat, t: Timing)
      requires i < |order|
      ensures batch + OnlyWanted(order[i..], holes, now, t)
              == (if Wanted(holes, order[i], now, t) then batch + [order[i]] else batch)
                  + OnlyWanted(order[i + 1..], holes, now, t)
    {
      assert order[i..][1..] == order[i + 1..];
    }

    static lemma FullOrAll(batch: seq<u64>, rest: seq<u64>, all: seq<u64>)
      requires batch + rest == all && |batch| <= MAX_REPAIR_BATCH
      requires rest == [] || |batch| == MAX_REPAIR_BATCH
      ensures batch == FirstBatch(all)
    {
    }

    /** One tick of one bucket. Returns the bytes written to the repair
        connection, if any. */
    method NakBucket(i: nat, now: nat, connects: bool, writes: bool) returns (written: seq<byte>)
      requires Valid() && i < |buckets| && clock <= now
      modifies this`buckets, this`open, this`held, this`blockedUntil, this`clock
      ensures Valid() && clock == now
      ensures var n := Nak(old(buckets)[i], old(State()).repair, now, timing, connects, writes);
        && State() == SubscriberState(old(buckets)[i := n.bucket], n.repair)
        && written == if n.asked == [] then [] else EncodeRequest(Request(buckets[i].id, n.asked))
      ensures var before, after := old(buckets)[i].holes, buckets[i].holes;
        forall s | s in after && !(s in before && after[s] == before[s]) ::
          && s in before && after[s] == before[s].(asked := now)
          && (if before[s].asked == 0 then now - before[s].noticed > timing.nakDelay
              else now - before[s].asked > timing.nakRepeat)
    {
      ghost var was, r := buckets, State().repair;
      ghost var n := Nak(was[i], r, now, timing, connects, writes);
      StampsAge(was, clock, now);
      NakOrderly(was[i], r, now, timing, connects, writes);
      ReplaceOrderly(was, i, n.bucket, now);
      hide AllOrderly, Nak;
      clock := now;
      written := Tick(i, now, connects, writes);
      assert buckets == was[i := n.bucket];
      NakOnHoles(was[i], r, now, timing, connects, writes);
    }

    static lemma ReplaceOrderly(buckets: seq<Bucket>, i: nat, b: Bucket, clock: nat)
      requires i < |buckets| && AllOrderly(buckets, clock) && Orderly(b) && StampedBy(b, clock)
      ensures AllOrderly(buckets[i := b], clock) && NoticedInOrder(buckets[i])
    {
    }

    static lemma NakByCases(b: Bucket, r: Repair, now: nat, t: Timing, connects: bool, writes: bool)
      ensures var e := Expire(b, now, t.giveup);
        Nak(b, r, now, t, connects, writes)
        == if Batch(e, now, t) == [] || (!r.open && now < r.blockedUntil) then NakResult(e, r, [])
           else Ask(e, r, Batch(e, now, t), now, t, connects, writes)
    {
    }

    static lemma NothingToAsk(b: Bucket, now: nat, t: Timing)
      requires b.holes == map[]
      ensures Batch(b, now, t) == []
    {
    }

    method Tick(i: nat, now: nat, connects: bool, writes: bool) returns (written: seq<byte>)
      requires i < |buckets| && NoticedInOrder(buckets[i])
      requires held <= buffer.Length && (!open ==> held == 0)
      modifies this`buckets, this`open, this`held, this`blockedUntil
      ensures held <= old(held) && (!open ==> held == 0) && (held == 0 || held == old(held))
      ensures var n := Nak(old(buckets)[i], old(State()).repair, now, timing, connects, writes);
        && State() == SubscriberState(old(buckets)[i := n.bucket], n.repair)
        && written == if n.asked == [] then [] else EncodeRequest(Request(buckets[i].id, n.asked))
    {
      hide Nak, Batch, Ask, Expire, EncodeRequest;
      written := [];
      var b := ExpireHoles(buckets[i], now, timing.giveup);
      buckets := buckets[i := b];
      NakByCases(old(buckets)[i], old(State()).repair, now, timing, connects, writes);
      if b.holes == map[] {
        NothingToAsk(b, now, timing);
        return;
      }
      if !open && now < blockedUntil {
        return;
      }
      var batch := CollectBatch(b, now, timing);
      if batch == [] {
        return;
      }
      written := AskFor(i, batch, now, connects, writes);
    }

    method AskFor(i: nat, batch: seq<u64>, now: nat, connects: bool, writes: bool) returns (written: seq<byte>)
      requires i < |buckets| && held <= buffer.Length && (!open ==> held == 0) && |batch| < 0x1_0000
      modifies this`buckets, this`open, this`held, this`blockedUntil
      ensures held <= old(held) && (!open ==> held == 0) && (held == 0 || held == old(held))
      ensures var n := Ask(old(buckets)[i], old(State()).repair, batch, now, timing, connects, writes);
        && State() == SubscriberState(old(buckets)[i := n.bucket], n.repair)
        && written == if n.asked == [] then [] else EncodeRequest(Request(buckets[i].id, n.asked))
    {
      written := [];
      if !open {
        if !connects {
          blockedUntil := now + timing.retry;
          return;
        }
        open := true;
      }
      if !writes {
        ResetRepair();
        blockedUntil := now + timing.retry;
        return;
      }
      written := if batch == [] then [] else EncodeRequest(Request(buckets[i].id, batch));
      var b := StampAsked(buckets[i], batch, now);
      buckets := buckets[i := b];
    }

    /** Stamps the holes just asked for. */
    static method StampAsked(b: Bucket, batch: seq<u64>, now: nat) returns (c: Bucket)
      ensures c == Asked(b, batch, now)
    {
      var holes := b.holes;
      for k := 0 to |batch|
        invariant holes == map s | s in b.holes :: if s in batch[..k] then b.holes[s].(asked := now) else b.holes[s]
      {
        assert batch[..k + 1] == batch[..k] + [batch[k]];
        if batch[k] in holes {
          holes := holes[batch[k] := holes[batch[k]].(asked := now)];
        }
      }
      assert batch[..|batch|] == batch;
      c := b.(holes := holes, stats := b.stats.(requests := b.stats.requests + 1));
    }

    /** What one look at the front of the bytes tells. */
    static lemma FirstFrame(buckets: seq<Bucket>, rest: seq<byte>)
      ensures ApplyFrames(buckets, []) == buckets
      ensures !Complete(rest) ==> ParseFrames(rest) == Parse([], rest, false)
      ensures Complete(rest) && !LengthOk(rest) ==> ParseFrames(rest) == Parse([], rest, true)
      ensures Complete(rest) && LengthOk(rest) ==>
        var now, after := ParseFrames(rest), ParseFrames(rest[12 + GetU16(rest, 10)..]);
        && ApplyFrames(buckets, now.frames) == ApplyFrames(ApplyTo(buckets, HeadFrame(rest)), after.frames)
        && now.rest == after.rest && now.bad == after.bad
    {
      if Complete(rest) && LengthOk(rest) {
        var now, after := ParseFrames(rest), ParseFrames(rest[12 + GetU16(rest, 10)..]);
        assert now.frames[1..] == after.frames;
        hide ApplyTo, HeadFrame, GetU16;
      }
    }

    /** Takes frames off the front of the buffer while they are complete. */
    method ApplyBuffered() returns (offset: nat, bad: bool)
      requires buffer.Length == REPAIR_BUF_CAP && held <= REPAIR_BUF_CAP && AllOrderly(buckets, clock)
      modifies this`buckets
      ensures offset <= held && AllOrderly(buckets, clock)
      ensures var p := ParseFrames(buffer[..held]);
        buckets == ApplyFrames(old(buckets), p.frames) && p.rest == buffer[offset..held] && p.bad == bad
    {
      hide ParseFrames, ApplyFrames, AllOrderly, HeadFrame, ApplyFrame;
      ghost var found := ParseFrames(buffer[..held]);
      ghost var was := buckets;
      offset := 0;
      bad := false;
      assert buffer[0..held] == buffer[..held];
      while held - offset >= FRAME_HEADER
        invariant 0 <= offset <= held && AllOrderly(buckets, clock)
        invariant var now := ParseFrames(buffer[offset..held]);
          ApplyFrames(buckets, now.frames) == ApplyFrames(was, found.frames) && now.rest == found.rest
              && now.bad == found.bad
      {
        var rest := buffer[offset..held];
        var length := GetU16(rest, 10);
        FirstFrame(buckets, rest);
        if held - offset < FRAME_HEADER + length {
          return;
        }
        if length != 0 && length != ORDER_MESSAGE_SIZE {
          return offset, true;
        }
        var f := HeadFrame(rest);
        ApplyToOrderly(buckets, f, clock);
        var i := Find(buckets, f.bucket);
        if i.Some? {
          ApplyToBucket(i.value, f);
        }
        assert rest[FRAME_HEADER + length..] == buffer[offset + FRAME_HEADER + length..held];
        offset := offset + FRAME_HEADER + length;
      }
      FirstFrame(buckets, buffer[offset..held]);
    }

    method ApplyToBucket(i: nat, f: Frame)
      requires i < |buckets|
      modifies this`buckets
      ensures buckets == old(buckets)[i := ApplyFrame(old(buckets)[i], f)]
    {
      var b := buckets[i];
      b := b.(holes := b.holes - {f.sequence});
      match f.payload {
        case None =>
          if f.sequence >= b.next {
            b := b.(gone := b.gone + {f.sequence});
          }
        case Some(p) =>
          if f.sequence >= b.next && f.sequence !in b.parked {
            b := b.(parked := b.parked[f.sequence := Decode(p)]);
            b := b.(stats := b.stats.(repaired := b.stats.repaired + 1));
          }
      }
      buckets := buckets[i := b];
    }

    /** Reads the repair connection. `queued` is what the kernel holds, `cuts`
        how much each recv is willing to hand over, `closed` whether the recv
        after those reports the end of the stream. Returns how many queued
        bytes were taken. */
    method DrainTcp(queued: seq<byte>, cuts: seq<nat>, closed: bool) returns (taken: nat, ended: bool)
      requires Valid() && open
      modifies this`buckets, this`open, this`held, buffer
      ensures Valid()
      ensures taken <= |queued| && old(held) + taken <= REPAIR_BUF_CAP && (ended ==> closed)
      ensures State() == if ended then Disconnected(old(State())) else Drained(old(State()), queued[..taken])
    {
      ghost var was := State();
      taken := Receive(queued, cuts);
      ended := closed && held < REPAIR_BUF_CAP;
      if ended {
        ResetRepair();
        return;
      }
      var offset, bad := ApplyBuffered();
      if bad {
        ResetRepair();
      } else {
        NeverWedged(was.repair.held + queued[..taken]);
        Compact(offset);
      }
    }

    /** Receives until the buffer is full or nothing more is there. */
    method Receive(queued: seq<byte>, cuts: seq<nat>) returns (taken: nat)
      requires buffer.Length == REPAIR_BUF_CAP && held <= REPAIR_BUF_CAP
      modifies this`held, buffer
      ensures taken <= |queued| && held == old(held) + taken <= REPAIR_BUF_CAP
      ensures buffer[..held] == old(buffer[..held]) + queued[..taken]
    {
      taken := 0;
      for k := 0 to |cuts|
        invariant taken <= |queued| && held == old(held) + taken <= REPAIR_BUF_CAP
        invariant buffer[..held] == old(buffer[..held]) + queued[..taken]
      {
        if held == REPAIR_BUF_CAP {
          break;
        }
        var room := REPAIR_BUF_CAP - held;
        var left := |queued| - taken;
        var n := if cuts[k] <= room && cuts[k] <= left then cuts[k] else if room <= left then room else left;
        Store(queued[taken..taken + n]);
        assert queued[..taken] + queued[taken..taken + n] == queued[..taken + n];
        taken := taken + n;
      }
    }

    /** What recv does: bytes land behind those already held. */
    method Store(bytes: seq<byte>)
      requires held + |bytes| <= buffer.Length
      modifies this`held, buffer
      ensures held == old(held) + |bytes|
      ensures buffer[..held] == old(buffer[..held]) + bytes
    {
      forall k | 0 <= k < |bytes| {
        buffer[held + k] := bytes[k];
      }
      held := held + |bytes|;
    }

    /** Shifts the unparsed tail to the front. */
    method Compact(offset: nat)
      requires offset <= held <= buffer.Length
      modifies this`held, buffer
      ensures held == old(held) - offset
      ensures buffer[..held] == old(buffer[offset..held])
    {
      held := held - offset;
      forall k | 0 <= k < held {
        buffer[k] := buffer[offset + k];
      }
    }

    /** Releases what is contiguous; returns what the callback was handed. */
    method Deliver(i: nat) returns (handed: seq<OrderMessage>)
      requires Valid() && i < |buckets|
      modifies this`buckets
      ensures Valid()
      ensures State() == old(State()).(buckets := old(buckets)[i := ReleaseAll(old(buckets)[i]).0])
      ensures handed == Handed(ReleaseAll(old(buckets)[i]).1)
      ensures buckets[i].done || (buckets[i].next !in buckets[i].parked && buckets[i].next !in buckets[i].gone)
    {
      ReleaseAllOrderly(buckets[i], clock);
      DeliveryStops(buckets[i]);
      var b, out := ReleaseContiguous(buckets[i]);
      handed := out;
      buckets := buckets[i := b];
    }

    /** Takes the next number off, if it is known what became of it. */
    static method ReleaseNext(b: Bucket) returns (c: Bucket, r: Option<Release>)
      ensures ReleaseOne(b) == if r.None? then None else Some((c, r.value))
      ensures r.None? ==> c == b
    {
      c := b;
      if b.done {
        return c, None;
      }
      if b.next in b.parked {
        var m := b.parked[b.next];
        c := c.(parked := b.parked - {b.next}, next := b.next + 1);
        if m.kind == END {
          c := c.(done := true);
          return c, Some(Ended);
        }
        c := c.(stats := b.stats.(delivered := b.stats.delivered + 1));
        return c, Some(Delivered(m));
      }
      if b.next in b.gone {
        c := c.(gone := b.gone - {b.next}, next := b.next + 1,
                stats := b.stats.(unrecoverable := b.stats.unrecoverable + 1));
        return c, Some(Lost);
      }
      return c, None;
    }

    static method ReleaseContiguous(b0: Bucket) returns (b: Bucket, handed: seq<OrderMessage>)
      ensures b == ReleaseAll(b0).0
      ensures handed == Handed(ReleaseAll(b0).1)
    {
      assert Handed([]) == [];
      hide Handed, ReleaseAll, ReleaseOne;
      handed := [];
      ghost var released: seq<Release> := [];
      var c, r := ReleaseNext(b0);
      b := b0;
      while r.Some?
        invariant ReleaseOne(b) == if r.None? then None else Some((c, r.value))
        invariant ReleaseAll(b).0 == ReleaseAll(b0).0
        invariant released + ReleaseAll(b).1 == ReleaseAll(b0).1
        invariant handed == Handed(released)
        decreases r.Some?, |b.parked| + |b.gone|
      {
        ReleaseShrinks(b);
        ReleaseMore(b, released);
        released := released + [r.value];
        if r.value.Delivered? {
          handed := handed + [r.value.message];
        }
        b := c;
        c, r := ReleaseNext(b);
      }
      ReleaseNone(b);
      assert released + [] == released;
    }

    static lemma ReleaseNone(b: Bucket)
      requires ReleaseOne(b).None?
      ensures ReleaseAll(b) == (b, [])
    {
    }

    static lemma ReleaseMore(b: Bucket, released: seq<Release>)
      requires ReleaseOne(b).Some?
      ensures var (c, r) := ReleaseOne(b).value;
        && ReleaseAll(b).0 == ReleaseAll(c).0
        && released + ReleaseAll(b).1 == released + [r] + ReleaseAll(c).1
        && Handed(released + [r]) == Handed(released) + (if r.Delivered? then [r.message] else [])
    {
      var (c, r) := ReleaseOne(b).value;
      assert (released + [r])[..|released|] == released;
      assert ReleaseAll(b).1 == [r] + ReleaseAll(c).1;
    }

    /** Reads every bucket's socket dry. */
    method DrainSockets(arrivals: seq<seq<Arrival>>)
      requires Valid() && |arrivals| == |buckets| && AllRun(clock, arrivals)
      modifies this`buckets, this`clock, this`datagramsSeen
      ensures Valid() && clock == LastOf(old(clock), arrivals)
      ensures datagramsSeen == old(datagramsSeen) + OwnOnSockets(old(buckets), arrivals, |arrivals|)
      ensures State() == old(State()).(buckets := ReceivedAll(old(buckets), arrivals, backfill))
    {
      hide AcceptAll, AllOrderly, Runs, LastAt;
      ghost var was := State();
      for i := 0 to |arrivals|
        invariant Valid() && |buckets| == |arrivals|
        invariant AllRun(clock, arrivals[i..]) && LastOf(clock, arrivals[i..]) == LastOf(old(clock), arrivals)
        invariant State() == was.(buckets := buckets)
        invariant forall k | 0 <= k < i :: buckets[k] == AcceptAll(was.buckets[k], arrivals[k], backfill)
        invariant forall k | i <= k < |buckets| :: buckets[k] == was.buckets[k]
        invariant datagramsSeen == old(datagramsSeen) + OwnOnSockets(was.buckets, arrivals, i)
      {
        assert arrivals[i..][1..] == arrivals[i + 1..];
        DrainUdp(i, arrivals[i]);
      }
    }

    /** Ticks and delivers one bucket. */
    method TickAndDeliver(i: nat, now: nat, connects: bool, writes: bool) returns (handed: seq<OrderMessage>)
      requires Valid() && clock <= now && i < |buckets|
      modifies this`buckets, this`open, this`held, this`blockedUntil, this`clock
      ensures Valid() && clock == now
      ensures (State(), handed) == Ticked(old(State()), i, now, timing, connects, writes)
      ensures Unstuck(buckets[i], now, timing.giveup)
    {
      ghost var s := State();
      StampsAge(buckets, clock, now);
      NakThenDeliverUnstuck(s.buckets[i], s.repair, now, timing, connects, writes);
      hide Nak, ReleaseAll, Handed, Unstuck, AllOrderly, EncodeRequest;
      var written := NakBucket(i, now, connects, writes);
      handed := Deliver(i);
      assert buckets == s.buckets[i := buckets[i]];
    }

    method TickAndDeliverAll(times: seq<nat>, connects: nat -> bool, writes: nat -> bool)
      returns (handed: seq<seq<OrderMessage>>)
      requires Valid() && |times| == |buckets| && TimesRun(clock, times)
      modifies this`buckets, this`open, this`held, this`blockedUntil, this`clock
      ensures Valid() && clock == if times == [] then old(clock) else times[|times| - 1]
      ensures (State(), handed) == TickedAll(old(State()), |times|, times, timing, connects, writes)
      ensures forall i | 0 <= i < |buckets| :: Unstuck(buckets[i], times[i], timing.giveup)
    {
      hide Ticked, Unstuck, AllOrderly;
      ghost var s := State();
      handed := [];
      for i := 0 to |times|
        invariant Valid() && |buckets| == |s.buckets|
        invariant if i == 0 then clock == old(clock) else clock == times[i - 1]
        invariant (State(), handed) == TickedAll(s, i, times, timing, connects, writes)
        invariant forall k | 0 <= k < i :: Unstuck(buckets[k], times[k], timing.giveup)
      {
        ghost var before := State();
        var out := TickAndDeliver(i, times[i], connects(i), writes(i));
        OthersKept(before, i, times[i], timing, connects(i), writes(i));
        handed := handed + [out];
      }
    }

    static lemma OthersKept(s: SubscriberState, i: nat, now: nat, t: Timing, connects: bool, writes: bool)
      requires i < |s.buckets|
      ensures var after := Ticked(s, i, now, t, connects, writes).0.buckets;
        |after| == |s.buckets| && forall k | 0 <= k < |after| && k != i :: after[k] == s.buckets[k]
    {
    }

    /** One turn of the driver: read every socket, then tick and deliver every
        bucket at its own clock reading; `taken` is how much was read of the
        repair connection, `ended` whether it turned out closed. No bucket is
        left stuck behind an old hole, or with anything to hand on. */
    method Pump(arrivals: seq<seq<Arrival>>, queued: seq<byte>, cuts: seq<nat>, closed: bool, times: seq<nat>,
                connects: nat -> bool, writes: nat -> bool)
      returns (handed: seq<seq<OrderMessage>>, taken: nat, ended: bool)
      requires Valid() && |arrivals| == |buckets| == |times|
      requires AllRun(clock, arrivals) && TimesRun(LastOf(clock, arrivals), times)
      modifies this, buffer
      ensures Valid() && clock == if times == [] then LastOf(old(clock), arrivals) else times[|times| - 1]
      ensures taken <= |queued| && old(held) + taken <= REPAIR_BUF_CAP && (ended ==> closed)
      ensures datagramsSeen == old(datagramsSeen) + OwnOnSockets(old(buckets), arrivals, |arrivals|)
      ensures (State(), handed)
           == Pumped(old(State()), arrivals, queued[..taken], ended, times, timing, backfill, connects, writes)
      ensures forall i | 0 <= i < |buckets| :: Unstuck(buckets[i], times[i], timing.giveup)
    {
      hide ReceivedAll, TickedAll, ParseFrames, ApplyFrames, AllOrderly, Unstuck, AllRun, LastOf, OwnOnSockets;
      taken, ended := 0, false;
      DrainSockets(arrivals);
      if open {
        taken, ended := DrainTcp(queued, cuts, closed);
      }
      handed := TickAndDeliverAll(times, connects, writes);
    }

    /** Every joined bucket has reached the end of its stream. */
    method Done() returns (done: bool)
      ensures done <==> forall i | 0 <= i < |buckets| :: buckets[i].done
    {
      for i := 0 to |buckets|
        invariant forall k | 0 <= k < i :: buckets[k].done
      {
        if !buckets[i].done {
          return false;
        }
      }
      done := true;
    }

    /** What one bucket lost and repaired; no bucket has that id: nothing. */
    method StatsFor(id: u16) returns (stats: Stats)
      ensures forall i | 0 <= i < |buckets| && buckets[i].id == id && (forall k | 0 <= k < i :: buckets[k].id != id) ::
                stats == buckets[i].stats
      ensures (forall i | 0 <= i < |buckets| :: buckets[i].id != id) ==> stats == Stats(0, 0, 0, 0, 0)
    {
      for i := 0 to |buckets|
        invariant forall k | 0 <= k < i :: buckets[k].id != id
      {
        if buckets[i].id == id {
          return buckets[i].stats;
        }
      }
      stats := NO_STATS;
    }

    method HeardFeed() returns (heard: bool)
      ensures heard <==> datagramsSeen > 0
    {
      heard := datagramsSeen > 0;
    }

    method TotalStats() returns (total: Stats)
      ensures total == SumStats(buckets)
    {
      total := NO_STATS;
      for i := 0 to |buckets|
        invariant total == SumStats(buckets[..i])
      {
        assert buckets[..i + 1][..i] == buckets[..i];
        total := AddStats(total, buckets[i].stats);
      }
      assert buckets[..|buckets|] == buckets;
    }
  }

  function AddStats(a: Stats, b: Stats): Stats {
    Stats(a.delivered + b.delivered, a.repaired + b.repaired, a.unrecoverable + b.unrecoverable,
          a.duplicates + b.duplicates, a.requests + b.requests)
  }

  function SumStats(buckets: seq<Bucket>): Stats
    decreases |buckets|
  {
    if buckets == [] then NO_STATS
    else AddStats(SumStats(buckets[..|buckets| - 1]), buckets[|buckets| - 1].stats)
  }

  /** Each counter of the total is the sum of that counter over the buckets. */
  lemma SumStatsExactly(buckets: seq<Bucket>, b: Bucket)
    ensures SumStats([]) == Stats(0, 0, 0, 0, 0)
    ensures var was, now := SumStats(buckets), SumStats(buckets + [b]);
      && now.delivered == was.delivered + b.stats.delivered && now.repaired == was.repaired + b.stats.repaired
      && now.unrecoverable == was.unrecoverable + b.stats.unrecoverable
      && now.duplicates == was.duplicates + b.stats.duplicates && now.requests == was.requests + b.stats.requests
  {
    assert (buckets + [b])[..|buckets|] == buckets;
  }
}
