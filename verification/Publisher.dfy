// The sending side: each bucket numbers its messages densely from 1, keeps
// the latest of them in a ring, and answers repair requests from that ring.
module Publishers {
  import opened Bytes
  import opened Messages
  import opened RepairWire
  import opened Books
  import BookLaws

  datatype Slot = Slot(sequence: nat, used: bool, payload: Payload)

  const EMPTY_PAYLOAD: Payload :=
    [0, 0, 0, 0, 0, 0, 0, 0, 0, 0, 0, 0, 0, 0, 0, 0, 0, 0, 0, 0, 0, 0, 0, 0, 0, 0, 0, 0, 0]

  const EMPTY_SLOT: Slot := Slot(0, false, EMPTY_PAYLOAD)

  datatype Ring = Ring(next: nat, slots: seq<Slot>)

  function NewRing(size: nat): Ring {
    Ring(1, seq(size, i => EMPTY_SLOT))
  }

  /** Numbering a message and writing it over the oldest slot. */
  function Stored(r: Ring, payload: Payload): (s: Ring)
    requires |r.slots| > 0
    ensures |s.slots| == |r.slots|
  {
    Ring(r.next + 1, r.slots[r.next % |r.slots| := Slot(r.next, true, payload)])
  }

  /** The answer to one requested number: its payload, or "gone". */
  function Answer(r: Ring, bucket: u16, sequence: u64): Frame
    requires |r.slots| > 0
  {
    var slot := r.slots[sequence % |r.slots|];
    Frame(bucket, sequence, if slot.used && slot.sequence == sequence then Some(slot.payload) else None)
  }

  function Answers(r: Ring, bucket: u16, sequences: seq<u64>): (fs: seq<Frame>)
    requires |r.slots| > 0
    ensures |fs| == |sequences|
    ensures forall i | 0 <= i < |fs| :: fs[i] == Answer(r, bucket, sequences[i])
    decreases |sequences|
  {
    if sequences == [] then [] else [Answer(r, bucket, sequences[0])] + Answers(r, bucket, sequences[1..])
  }

  /** The ring a log of messages leaves behind. */
  function RingOf(log: seq<OrderMessage>, size: nat): (r: Ring)
    requires size > 0
    ensures r.next == |log| + 1 && |r.slots| == size
    decreases |log|
  {
    if log == [] then NewRing(size) else Stored(RingOf(log[..|log| - 1], size), Encode(log[|log| - 1]))
  }

  /** Sequence s is still held: it was numbered, and fewer than a ringful of
      messages came after it. */
  predicate Held(s: nat, published: nat, size: nat) {
    1 <= s <= published < s + size
  }

  lemma Multiple(k: int, size: nat)
    ensures k >= 1 ==> k * size >= size
    ensures k <= -1 ==> k * size <= 0 - size
  {
  }

  /** Numbers less than a ringful apart have different slots. */
  lemma SameSlot(a: nat, b: nat, size: nat)
    requires size > 0 && a <= b < a + size && a % size == b % size
    ensures a == b
  {
    var p, q := a / size, b / size;
    assert b - a == (q - p) * size;
    Multiple(q - p, size);
  }

  /** Numbers a ringful apart share a slot. */
  lemma SlotReused(s: nat, size: nat)
    requires size > 0
    ensures (s + size) % size == s % size
  {
    var q, r, x := s / size, s % size, s + size;
    assert x == (q + 1) * size + r;
    assert (x / size - q - 1) * size == r - x % size;
    Multiple(x / size - q - 1, size);
  }

  ghost predicate SlotsTrue(r: Ring, log: seq<OrderMessage>) {
    forall k | 0 <= k < |r.slots| && r.slots[k].used ::
      1 <= r.slots[k].sequence <= |log| && r.slots[k].sequence % |r.slots| == k
      && r.slots[k].payload == Encode(log[r.slots[k].sequence - 1])
  }

  ghost predicate RecentHeld(r: Ring, log: seq<OrderMessage>)
    requires |r.slots| > 0
  {
    forall s: nat | Held(s, |log|, |r.slots|) :: r.slots[s % |r.slots|].used && r.slots[s % |r.slots|].sequence == s
  }

  lemma StillHeld(log: seq<OrderMessage>, size: nat, s: nat)
    requires size > 0 && log != [] && Held(s, |log|, size)
    requires RecentHeld(RingOf(log[..|log| - 1], size), log[..|log| - 1])
    ensures var slot := RingOf(log, size).slots[s % size]; slot.used && slot.sequence == s
  {
    if s < |log| {
      assert Held(s, |log| - 1, size);
      if s % size == |log| % size {
        SameSlot(s, |log|, size);
      }
    }
  }

  lemma {:induction false} RingHolds(log: seq<OrderMessage>, size: nat)
    requires size > 0
    ensures SlotsTrue(RingOf(log, size), log) && RecentHeld(RingOf(log, size), log)
    decreases |log|
  {
    hide Encode;
    if log != [] {
      var front := log[..|log| - 1];
      RingHolds(front, size);
      var was, now := RingOf(front, size), RingOf(log, size);
      forall s: nat | Held(s, |log|, size) ensures now.slots[s % size].used && now.slots[s % size].sequence == s {
        StillHeld(log, size, s);
      }
    }
  }

  /** The ring answers a number with the payload that was published under it
      exactly while fewer than a ringful of messages came after it; otherwise, and
      for a number not yet used, the answer is "gone". */
  lemma RingAnswers(log: seq<OrderMessage>, size: nat, bucket: u16, s: u64)
    requires size > 0
    ensures Answer(RingOf(log, size), bucket, s)
         == Frame(bucket, s, if 1 <= s <= |log| < s + size then Some(Encode(log[s - 1])) else None)
  {
    hide RingOf, Encode, SlotsTrue, RecentHeld;
    RingHolds(log, size);
    SlotHolds(RingOf(log, size), log, s);
    if s + size <= |log| {
      Overwritten(log, size, s);
    }
  }

  /** The slot of a number: its own payload while it is held, and nothing under
      that number if it was not used yet. */
  lemma SlotHolds(r: Ring, log: seq<OrderMessage>, s: u64)
    requires |r.slots| > 0 && SlotsTrue(r, log) && RecentHeld(r, log)
    ensures var slot := r.slots[s % |r.slots|];
      && (Held(s, |log|, |r.slots|) ==> slot.used && slot.sequence == s && slot.payload == Encode(log[s - 1]))
      && (slot.used && slot.sequence == s ==> 1 <= s <= |log|)
  {
    hide Encode;
  }

  /** A slot never holds a number a ringful old. */
  lemma {:induction false} Overwritten(log: seq<OrderMessage>, size: nat, s: nat)
    requires size > 0 && s + size <= |log|
    ensures !(RingOf(log, size).slots[s % size].used && RingOf(log, size).slots[s % size].sequence == s)
    decreases |log|
  {
    var front := log[..|log| - 1];
    if |log| == s + size {
      SlotReused(s, size);
    } else {
      Overwritten(front, size, s);
    }
  }

  /** The ring and the counters of one bucket, and the reference book set it
      feeds before any loss. */
  class PublisherBucket {
    var nextSequence: nat
    var published: nat
    var dropped: nat
    const ring: array<Slot>
    const golden: BookSet
    ghost const objects: set<object>
    /** Everything stored under 1, 2, 3, ... */
    ghost var log: seq<OrderMessage>
    /** Everything the golden book set was fed. */
    ghost var fed: seq<OrderMessage>

    function State(): Ring
      reads this, ring
    {
      Ring(nextSequence, ring[..])
    }

    ghost predicate Valid()
      reads objects
    {
      && objects == {this, ring, golden, golden.fingerprint}
      && ring.Length > 0
      && State() == RingOf(log, ring.Length)
      && golden.State() == Replay(EMPTY_SET, fed)
      && published == |fed| && fed <= log && dropped <= published
    }

    constructor (ringSize: nat)
      requires ringSize > 0
      ensures Valid() && log == [] && fed == [] && dropped == 0 && ring.Length == ringSize
      ensures fresh(objects)
    {
      nextSequence, published, dropped := 1, 0, 0;
      var slots := new Slot[ringSize](i => EMPTY_SLOT);
      var reference := new BookSet();
      ring, golden := slots, reference;
      log, fed := [], [];
      objects := {this, slots, reference, reference.fingerprint};
      new;
      assert ring[..] == seq(ringSize, i => EMPTY_SLOT);
    }

    /** Numbers a payload and stores it: one critical section. */
    method Store(m: OrderMessage) returns (sequence: nat)
      requires ring.Length > 0 && State() == RingOf(log, ring.Length)
      modifies this`nextSequence, this`log, ring
      ensures log == old(log) + [m] && sequence == |log|
      ensures State() == RingOf(log, ring.Length)
    {
      sequence := nextSequence;
      nextSequence := nextSequence + 1;
      ring[sequence % ring.Length] := Slot(sequence, true, Encode(m));
      log := log + [m];
      assert log[..|log| - 1] == old(log);
    }

    method StoreEnd() returns (sequence: nat)
      requires Valid() && log == fed
      modifies objects
      ensures Valid() && fed == old(fed) && log == fed + [END_MESSAGE] && sequence == |log|
    {
      hide Replay, RingOf, Encode;
      sequence := Store(END_MESSAGE);
    }

    /** Feeds the golden books, stores the message, and returns the datagram
        to send unless it is deliberately lost. */
    method Publish(m: OrderMessage, bucket: u16, lose: bool) returns (datagram: Option<seq<byte>>)
      requires Valid() && log == fed && nextSequence < 0x1_0000_0000_0000_0000
      modifies objects
      ensures Valid() && log == fed == old(log) + [m]
      ensures datagram == if lose then None else Some(DgramEncode(bucket, |log|, Encode(m)))
      ensures dropped == old(dropped) + (if lose then 1 else 0)
    {
      ReplayOne(log, m);
      hide Replay, ApplySet, RingOf, DgramEncode, Encode;
      golden.Apply(m);
      var sequence := Store(m);
      fed := log;
      published := published + 1;
      if lose {
        dropped := dropped + 1;
        return None;
      }
      datagram := Some(DgramEncode(bucket, sequence, Encode(m)));
    }

    /** Answers one request from the ring: one critical section. */
    method Serve(bucket: u16, sequences: seq<u64>) returns (response: seq<byte>)
      requires ring.Length > 0
      ensures response == EncodeFrames(Answers(State(), bucket, sequences))
    {
      response := [];
      ghost var all := Answers(State(), bucket, sequences);
      assert EncodeFrames(all[..0]) == [];
      hide EncodeFrames, EncodeFrame, Answer, Answers, Body, State;
      for i := 0 to |sequences|
        invariant response == EncodeFrames(all[..i])
      {
        var frame := AnswerOne(bucket, sequences[i]);
        FramesUpTo(all, i);
        assert all[i] == Answer(State(), bucket, sequences[i]);
        response := response + frame;
      }
      assert all[..|sequences|] == all;
    }

    method AnswerOne(bucket: u16, sequence: u64) returns (frame: seq<byte>)
      requires ring.Length > 0
      ensures frame == EncodeFrame(Answer(State(), bucket, sequence))
    {
      var slot := ring[sequence % ring.Length];
      var inRing := slot.used && slot.sequence == sequence;
      frame := LE(bucket, 2) + LE(sequence, 8) + LE(if inRing then ORDER_MESSAGE_SIZE else 0, 2);
      if inRing {
        frame := frame + slot.payload;
      }
    }
  }

  lemma FramesUpTo(fs: seq<Frame>, i: nat)
    requires i < |fs|
    ensures EncodeFrames(fs[..i + 1]) == EncodeFrames(fs[..i]) + EncodeFrame(fs[i])
  {
    assert fs[..i + 1] == fs[..i] + [fs[i]];
    FramesAppend(fs[..i], fs[i]);
  }

  lemma ReplayOne(stream: seq<OrderMessage>, m: OrderMessage)
    ensures Replay(EMPTY_SET, stream + [m]) == ApplySet(Replay(EMPTY_SET, stream), m)
  {
    assert (stream + [m])[..|stream|] == stream;
  }

  /** A stream divided into the streams of the buckets. */
  function Divided(stream: seq<OrderMessage>, bucketCount: nat): (parts: seq<seq<OrderMessage>>)
    requires bucketCount > 0
    ensures |parts| == bucketCount
    ensures forall i | 0 <= i < bucketCount :: parts[i] == BookLaws.OfBucket(stream, i, bucketCount)
  {
    seq(bucketCount, i requires 0 <= i < bucketCount => BookLaws.OfBucket(stream, i, bucketCount))
  }

  /** One more message lengthens one part. */
  lemma OneMore(stream: seq<OrderMessage>, m: OrderMessage, bucketCount: nat)
    requires bucketCount > 0
    ensures var parts, i := Divided(stream, bucketCount), BucketOf(m.symbol, bucketCount);
      i < bucketCount && Divided(stream + [m], bucketCount) == parts[i := parts[i] + [m]]
  {
    var i, parts, more := BucketOf(m.symbol, bucketCount), Divided(stream, bucketCount),
        Divided(stream + [m], bucketCount);
    assert 0 <= i < bucketCount;
    hide BucketOf, Divided;
    assert (stream + [m])[..|stream|] == stream;
    assert forall k | 0 <= k < bucketCount :: more[k] == if k == i then parts[k] + [m] else parts[k];
  }

  /** A bucket carries no more messages than were published in all. */
  lemma {:induction false} BucketNotLonger(stream: seq<OrderMessage>, bucket: nat, bucketCount: nat)
    requires bucketCount > 0
    ensures |BookLaws.OfBucket(stream, bucket, bucketCount)| <= |stream|
    decreases |stream|
  {
    if stream != [] {
      BucketNotLonger(stream[..|stream| - 1], bucket, bucketCount);
    }
  }

  /** The datagram that carries m after the stream: in its bucket, under the
      bucket's next number. */
  function DatagramOf(stream: seq<OrderMessage>, m: OrderMessage, bucketCount: nat): seq<byte>
    requires 0 < bucketCount <= 0x1_0000 && |stream| + 1 < 0x1_0000_0000_0000_0000
  {
    RoomForOne(stream, m, bucketCount);
    var i := BucketOf(m.symbol, bucketCount);
    DgramEncode(i, |Divided(stream, bucketCount)[i]| + 1, Encode(m))
  }

  lemma RoomForOne(stream: seq<OrderMessage>, m: OrderMessage, bucketCount: nat)
    requires bucketCount > 0 && |stream| + 1 < 0x1_0000_0000_0000_0000
    ensures |Divided(stream, bucketCount)[BucketOf(m.symbol, bucketCount)]| + 1 < 0x1_0000_0000_0000_0000
  {
    BucketNotLonger(stream, BucketOf(m.symbol, bucketCount), bucketCount);
  }

  lemma {:induction false} FramesAppend(fs: seq<Frame>, f: Frame)
    ensures EncodeFrames(fs + [f]) == EncodeFrames(fs) + EncodeFrame(f)
    decreases |fs|
  {
    if fs == [] {
      assert EncodeFrames([f][1..]) == [];
    } else {
      assert (fs + [f])[1..] == fs[1..] + [f];
      FramesAppend(fs[1..], f);
      Regroup(EncodeFrame(fs[0]), EncodeFrames(fs[1..]), EncodeFrame(f));
    }
  }

  /** All buckets of the republished feed. */
  class FeedPublisher {
    const buckets: seq<PublisherBucket>
    ghost const repr: set<object>
    /** Everything published, in order. */
    ghost var stream: seq<OrderMessage>

    ghost predicate Separate() {
      && (forall i | 0 <= i < |buckets| :: buckets[i].objects <= repr)
      && (forall i, j | 0 <= i < |buckets| && 0 <= j < |buckets| && i != j :: buckets[i].objects !! buckets[j].objects)
      && this !in repr
    }

    /** Every bucket holds, in order, exactly the messages of its symbols. */
    ghost predicate Valid()
      reads this, repr
    {
      && 0 < |buckets| <= 0x1_0000
      && Separate()
      && (forall i | 0 <= i < |buckets| :: Carries(buckets[i], Divided(stream, |buckets|)[i]))
    }

    /** The bucket holds these messages, and no end marker. */
    static ghost predicate Carries(b: PublisherBucket, messages: seq<OrderMessage>)
      reads b.objects
    {
      b.Valid() && b.log == b.fed == messages
    }

    constructor (bucketCount: nat, ringSize: nat)
      requires 0 < bucketCount <= 0x1_0000 && ringSize > 0
      ensures Valid() && fresh(repr) && stream == [] && |buckets| == bucketCount
    {
      hide Replay, RingOf, PublisherBucket.State, BucketOf;
      var all: seq<PublisherBucket> := [];
      ghost var union: set<object> := {};
      for k := 0 to bucketCount
        invariant |all| == k && fresh(union)
        invariant forall i | 0 <= i < k ::
            all[i].Valid() && all[i].log == all[i].fed == [] && all[i].objects <= union && all[i] in all[i].objects
        invariant forall i, j | 0 <= i < k && 0 <= j < k && i != j :: all[i].objects !! all[j].objects
      {
        var b := new PublisherBucket(ringSize);
        all := all + [b];
        union := union + b.objects;
      }
      buckets, repr, stream := all, union, [];
    }

    method Publish(m: OrderMessage, lose: bool) returns (datagram: Option<seq<byte>>)
      requires Valid()
      requires |stream| + 1 < 0x1_0000_0000_0000_0000
      modifies this, repr
      ensures Valid() && stream == old(stream) + [m]
      ensures datagram == if lose then None else Some(DatagramOf(old(stream), m, |buckets|))
    {
      hide Divided, Carries, BucketOf, DgramEncode, Encode;
      RoomForOne(stream, m, |buckets|);
      OneMore(stream, m, |buckets|);
      var k := BucketOf(m.symbol, |buckets|);
      datagram := PublishTo(k, m, lose, Divided(stream, |buckets|));
      stream := stream + [m];
    }

    /** Publishes in one bucket and leaves the others alone. */
    method PublishTo(k: nat, m: OrderMessage, lose: bool, ghost parts: seq<seq<OrderMessage>>)
      returns (datagram: Option<seq<byte>>)
      requires k < |buckets| == |parts| <= 0x1_0000 && Separate()
      requires forall i | 0 <= i < |buckets| :: Carries(buckets[i], parts[i])
      requires |parts[k]| + 1 < 0x1_0000_0000_0000_0000
      modifies repr
      ensures forall i | 0 <= i < |buckets| :: Carries(buckets[i], parts[k := parts[k] + [m]][i])
      ensures datagram == if lose then None else Some(DgramEncode(k, |parts[k]| + 1, Encode(m)))
    {
      hide Replay, RingOf, DgramEncode, Encode;
      assert Carries(buckets[k], parts[k]);
      assert buckets[k].State().next == |parts[k]| + 1;
      datagram := buckets[k].Publish(m, k, lose);
      forall i | 0 <= i < |buckets| ensures Carries(buckets[i], parts[k := parts[k] + [m]][i]) {
        if i != k {
          assert old(Carries(buckets[i], parts[i]));
        }
      }
    }

    /** The bucket's log was closed with one end marker, which its books never
        see. */
    static ghost predicate Closed(b: PublisherBucket, messages: seq<OrderMessage>)
      reads b.objects
    {
      b.Valid() && b.log == messages + [END_MESSAGE] && b.fed == messages
    }

    /** Every number used was used for a published message, but for the end
        marker's once that is stored. */
    static lemma NumbersUsed(b: PublisherBucket, messages: seq<OrderMessage>)
      ensures Carries(b, messages) ==> b.nextSequence - 1 == b.published == |messages|
      ensures Closed(b, messages) ==> b.nextSequence - 1 == b.published + 1 == |messages| + 1
    {
      hide Replay, Encode;
    }

    /** Stores the end marker in every bucket, under its next number. */
    method StoreEnds() returns (ends: seq<nat>)
      requires Valid()
      modifies repr
      ensures |ends| == |buckets| > 0
      ensures forall i | 0 <= i < |buckets| ::
                Closed(buckets[i], Divided(stream, |buckets|)[i]) && ends[i] == |buckets[i].log|
    {
      hide PublisherBucket.State, Replay, RingOf, Encode, Divided;
      ends := [];
      for k := 0 to |buckets|
        invariant |ends| == k && Separate() && 0 < |buckets|
        invariant forall i | 0 <= i < k ::
            Closed(buckets[i], Divided(stream, |buckets|)[i]) && ends[i] == |buckets[i].log|
        invariant forall i | k <= i < |buckets| :: Carries(buckets[i], Divided(stream, |buckets|)[i])
      {
        label before:
        assert Carries(buckets[k], Divided(stream, |buckets|)[k]);
        assert buckets[k].objects <= repr;
        var end := buckets[k].StoreEnd();
        ends := ends + [end];
        forall i | k < i < |buckets| ensures Carries(buckets[i], Divided(stream, |buckets|)[i]) {
          assert old@before(Carries(buckets[i], Divided(stream, |buckets|)[i]));
        }
        forall i | 0 <= i < k ensures Closed(buckets[i], Divided(stream, |buckets|)[i]) {
          assert old@before(Closed(buckets[i], Divided(stream, |buckets|)[i]));
        }
      }
    }

    /** Closes every bucket and sends the end markers, twenty rounds of them;
        `lose` says which of the datagrams are dropped on purpose. */
    method Finish(lose: (nat, nat) -> bool) returns (sent: seq<seq<byte>>)
      requires Valid() && |stream| + 1 < 0x1_0000_0000_0000_0000
      modifies repr
      ensures |buckets| > 0
      ensures forall i | 0 <= i < |buckets| :: Closed(buckets[i], Divided(stream, |buckets|)[i])
      ensures sent == EndRounds(Ends(stream, |buckets|), END_ROUNDS, lose)
    {
      var numbers := StoreEnds();
      forall i | 0 <= i < |buckets| ensures numbers[i] == Ends(stream, |buckets|)[i] {
        assert Closed(buckets[i], Divided(stream, |buckets|)[i]);
      }
      hide Closed, Divided, Ends, EndRounds;
      var ends: seq<u64> := seq(|numbers|, i requires 0 <= i < |numbers| => numbers[i]);
      assert ends == Ends(stream, |buckets|);
      sent := SendEnds(ends, lose);
    }
  }

  const END_ROUNDS: nat := 20

  function EndNumber(stream: seq<OrderMessage>, i: nat, bucketCount: nat): (end: u64)
    requires i < bucketCount && |stream| + 1 < 0x1_0000_0000_0000_0000
    ensures end == |Divided(stream, bucketCount)[i]| + 1
  {
    BucketNotLonger(stream, i, bucketCount);
    |Divided(stream, bucketCount)[i]| + 1
  }

  /** The numbers of the end markers that close the buckets of a stream. */
  function Ends(stream: seq<OrderMessage>, bucketCount: nat): (ends: seq<u64>)
    requires bucketCount > 0 && |stream| + 1 < 0x1_0000_0000_0000_0000
    ensures |ends| == bucketCount
    ensures forall i | 0 <= i < bucketCount :: ends[i] == |Divided(stream, bucketCount)[i]| + 1
  {
    seq(bucketCount, i requires 0 <= i < bucketCount => EndNumber(stream, i, bucketCount))
  }

  function EndDatagramOf(ends: seq<u64>, i: nat): seq<byte>
    requires i < |ends| <= 0x1_0000
  {
    DgramEncode(i, ends[i], Encode(END_MESSAGE))
  }

  /** One round over the first n buckets. */
  function EndRound(ends: seq<u64>, n: nat, round: nat, lose: (nat, nat) -> bool): seq<seq<byte>>
    requires n <= |ends| <= 0x1_0000
  {
    if n == 0 then [] else
      EndRound(ends, n - 1, round, lose) + (if lose(round, n - 1) then [] else [EndDatagramOf(ends, n - 1)])
  }

  function EndRounds(ends: seq<u64>, rounds: nat, lose: (nat, nat) -> bool): seq<seq<byte>>
    requires |ends| <= 0x1_0000
  {
    if rounds == 0 then [] else EndRounds(ends, rounds - 1, lose) + EndRound(ends, |ends|, rounds - 1, lose)
  }

  method SendEnds(ends: seq<u64>, lose: (nat, nat) -> bool) returns (sent: seq<seq<byte>>)
    requires |ends| <= 0x1_0000
    ensures sent == EndRounds(ends, END_ROUNDS, lose)
  {
    hide EndDatagramOf, DgramEncode, Encode;
    sent := [];
    for round := 0 to END_ROUNDS
      invariant sent == EndRounds(ends, round, lose)
    {
      var once := SendRound(ends, round, lose);
      sent := sent + once;
    }
  }

  method SendRound(ends: seq<u64>, round: nat, lose: (nat, nat) -> bool) returns (sent: seq<seq<byte>>)
    requires |ends| <= 0x1_0000
    ensures sent == EndRound(ends, |ends|, round, lose)
  {
    hide DgramEncode, Encode;
    sent := [];
    for i := 0 to |ends|
      invariant sent == EndRound(ends, i, round, lose)
    {
      if !lose(round, i) {
        sent := sent + [DgramEncode(i, ends[i], Encode(END_MESSAGE))];
      }
    }
  }

  /** Round `round` sends d as the end marker of bucket i. */
  ghost predicate SendsEnd(ends: seq<u64>, round: nat, i: nat, lose: (nat, nat) -> bool, d: seq<byte>)
    requires |ends| <= 0x1_0000
  {
    i < |ends| && !lose(round, i) && d == EndDatagramOf(ends, i)
  }

  /** Round `round` sends d as the end marker of one of the first n buckets. */
  ghost predicate RoundSends(ends: seq<u64>, n: nat, round: nat, lose: (nat, nat) -> bool, d: seq<byte>)
    requires n <= |ends| <= 0x1_0000
  {
    exists i: nat | i < n :: SendsEnd(ends, round, i, lose, d)
  }

  lemma RoundSendsStep(ends: seq<u64>, n: nat, round: nat, lose: (nat, nat) -> bool, d: seq<byte>)
    requires 0 < n <= |ends| <= 0x1_0000
    ensures RoundSends(ends, n, round, lose, d)
        <==> RoundSends(ends, n - 1, round, lose, d) || SendsEnd(ends, round, n - 1, lose, d)
  {
    hide SendsEnd;
    if RoundSends(ends, n, round, lose, d) {
      var i: nat :| i < n && SendsEnd(ends, round, i, lose, d);
      assert i < n - 1 || i == n - 1;
    }
  }

  lemma EndRoundStep(ends: seq<u64>, n: nat, round: nat, lose: (nat, nat) -> bool, d: seq<byte>)
    requires 0 < n <= |ends| <= 0x1_0000
    ensures d in EndRound(ends, n, round, lose)
        <==> d in EndRound(ends, n - 1, round, lose) || SendsEnd(ends, round, n - 1, lose, d)
  {
    hide EndDatagramOf;
  }

  lemma {:induction false} EndsInRound(ends: seq<u64>, n: nat, round: nat, lose: (nat, nat) -> bool, d: seq<byte>)
    requires n <= |ends| <= 0x1_0000
    ensures d in EndRound(ends, n, round, lose) <==> RoundSends(ends, n, round, lose, d)
    decreases n
  {
    hide SendsEnd, EndRound, RoundSends;
    if n == 0 {
      EmptyRound(ends, round, lose, d);
    } else {
      EndsInRound(ends, n - 1, round, lose, d);
      EndRoundStep(ends, n, round, lose, d);
      RoundSendsStep(ends, n, round, lose, d);
    }
  }

  lemma EmptyRound(ends: seq<u64>, round: nat, lose: (nat, nat) -> bool, d: seq<byte>)
    requires |ends| <= 0x1_0000
    ensures d !in EndRound(ends, 0, round, lose) && !RoundSends(ends, 0, round, lose, d)
  {
  }

  /** What finishing sends is end markers, each under its bucket's last number:
      that of a bucket in every round in which it is not dropped. */
  lemma {:induction false} EndsSent(ends: seq<u64>, rounds: nat, lose: (nat, nat) -> bool, d: seq<byte>)
    requires |ends| <= 0x1_0000
    ensures d in EndRounds(ends, rounds, lose)
        <==> exists round: nat | round < rounds :: RoundSends(ends, |ends|, round, lose, d)
    decreases rounds
  {
    hide RoundSends, EndRound;
    if rounds > 0 {
      EndsSent(ends, rounds - 1, lose, d);
      EndsInRound(ends, |ends|, rounds - 1, lose, d);
    }
  }
}
