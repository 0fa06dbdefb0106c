// What the feed handler's numbering promises over every list of packets, and
// exactly when its counters tell the whole story.
module FeedLaws {
  import opened Bytes
  import opened Messages
  import opened Segments
  import opened FeedHandlers

  /** The number of the first message announced, 0 before any was. */
  function FirstSeen(packets: seq<seq<byte>>): u64
    decreases |packets|
  {
    if packets == [] then 0 else
      var front := packets[..|packets| - 1];
      if TakenAll(front).expected > 0 then FirstSeen(front)
      else match Accepted(packets[|packets| - 1]) case None => 0 case Some(h) => h.firstSequence
  }

  /** The numbers the handler moves past on account of a packet that does not
      hold their messages because it was cut short. */
  function Missing(expected: u64, packet: seq<byte>): nat {
    match Accepted(packet)
    case None => 0
    case Some(h) =>
      var reached := Longer(expected, h.firstSequence + |MessagesOf(packet, h)|);
      Longer(reached, Raised(expected, h)) - reached
  }

  function Longer(a: nat, b: nat): nat {
    if a >= b then a else b
  }

  function MissingIn(packets: seq<seq<byte>>): nat
    decreases |packets|
  {
    if packets == [] then 0 else
      var front := packets[..|packets| - 1];
      MissingIn(front) + Missing(TakenAll(front).expected, packets[|packets| - 1])
  }

  /** The packet announces numbers past the 64-bit range. */
  predicate Wraps(h: Header) {
    h.firstSequence + h.messageCount >= WORD
  }

  /** The packet wraps, and the handler would count a gap or hand a message on
      that `expected` cannot follow. */
  predicate Overruns(expected: u64, packet: seq<byte>) {
    match Accepted(packet)
    case None => false
    case Some(h) => Wraps(h) && (expected == 0 || GapBefore(expected, h) > 0 || Fresh(expected, packet, h) != [])
  }

  ghost predicate OverrunAt(packets: seq<seq<byte>>, k: nat)
    requires k < |packets|
  {
    Overruns(TakenAll(packets[..k]).expected, packets[k])
  }

  ghost predicate NoOverrun(packets: seq<seq<byte>>) {
    forall k | 0 <= k < |packets| :: !OverrunAt(packets, k)
  }

  // ---- one packet --------------------------------------------------------------

  /** Without wrap-around the counters move the way they read. */
  lemma PlainCounters(captureGaps: u64, expected: u64, h: Header)
    requires !Wraps(h) && captureGaps <= expected
    ensures Raised(expected, h) == Longer(expected, h.firstSequence + h.messageCount)
    ensures Gapped(captureGaps, expected, h) == captureGaps + GapBefore(expected, h)
  {
  }

  /** With it, `expected` moves no further than the count reaches. */
  lemma WrappedCounters(captureGaps: u64, expected: u64, h: Header)
    requires Wraps(h) && captureGaps <= expected
    ensures Raised(expected, h) == Longer(expected, h.firstSequence + h.messageCount - WORD)
    ensures Gapped(captureGaps, expected, h) == captureGaps + GapBefore(expected, h)
    ensures h.firstSequence + h.messageCount - WORD < 0x1_0000 && h.firstSequence > WORD - 0x1_0000
  {
  }

  lemma FreshNumbers(expected: u64, packet: seq<byte>)
    requires Accepted(packet).Some?
    ensures var h := Accepted(packet).value; var items := Fresh(expected, packet, h);
      && (forall i | 0 <= i < |items| ::
            Longer(expected, h.firstSequence) <= items[i].sequence < h.firstSequence + h.messageCount)
      && (forall i, j | 0 <= i < j < |items| :: items[i].sequence < items[j].sequence)
  {
    hide DecodeHeader, Blocks;
    assert |MessagesOf(packet, Accepted(packet).value)| <= Accepted(packet).value.messageCount;
  }

  lemma FreshLength(expected: u64, packet: seq<byte>)
    requires Accepted(packet).Some?
    ensures var h := Accepted(packet).value; var n := |MessagesOf(packet, h)|;
      && n <= h.messageCount
      && |Fresh(expected, packet, h)| == Longer(expected, h.firstSequence + n) - Longer(expected, h.firstSequence)
  {
    hide DecodeHeader, Blocks, Accepted;
  }

  /** Where the numbers a packet adds begin. */
  function From(expected: u64, h: Header): u64 {
    if expected == 0 then h.firstSequence else expected
  }

  /** What a packet adds to the numbers handed on, in gaps and missing is what
      it adds to `expected`, unless it overruns. */
  lemma PacketCount(captureGaps: u64, expected: u64, packet: seq<byte>)
    requires Accepted(packet).Some? && captureGaps <= expected && !Overruns(expected, packet)
    ensures var h := Accepted(packet).value;
      && |Fresh(expected, packet, h)| + GapBefore(expected, h) + Missing(expected, packet)
          == Raised(expected, h) - From(expected, h)
      && Gapped(captureGaps, expected, h) == captureGaps + GapBefore(expected, h)
      && Raised(expected, h) >= expected
  {
    var h := Accepted(packet).value;
    hide Fresh, MessagesOf, Accepted, DecodeHeader, Raised, Gapped;
    FreshLength(expected, packet);
    if Wraps(h) {
      WrappedCounters(captureGaps, expected, h);
    } else {
      PlainCounters(captureGaps, expected, h);
    }
  }

  /** A packet that overruns adds more than it moves `expected` by. */
  lemma OverrunCount(captureGaps: u64, expected: u64, packet: seq<byte>)
    requires Overruns(expected, packet) && captureGaps <= expected
    ensures var h := Accepted(packet).value;
      && (expected == 0 ==> Raised(expected, h) < h.firstSequence)
      && (expected > 0 ==>
            |Fresh(expected, packet, h)| + GapBefore(expected, h) > Raised(expected, h) - expected)
      && Gapped(captureGaps, expected, h) == captureGaps + GapBefore(expected, h)
  {
    var h := Accepted(packet).value;
    hide Fresh, MessagesOf, Accepted, DecodeHeader, Raised, Gapped;
    FreshLength(expected, packet);
    WrappedCounters(captureGaps, expected, h);
  }

  /** Something is missing exactly when a packet that does not wrap holds fewer
      messages than it announces and announces numbers not passed before. */
  lemma MissingExactly(expected: u64, packet: seq<byte>)
    ensures Missing(expected, packet) > 0 <==>
            var h := Accepted(packet);
            h.Some? && !Wraps(h.value) && |MessagesOf(packet, h.value)| < h.value.messageCount
            && expected < h.value.firstSequence + h.value.messageCount
  {
    var h := Accepted(packet);
    if h.Some? {
      hide Fresh, MessagesOf, Accepted, DecodeHeader, Raised, Gapped;
      FreshLength(expected, packet);
      if Wraps(h.value) {
        WrappedCounters(0, expected, h.value);
      } else {
        PlainCounters(0, expected, h.value);
      }
    }
  }

  // ---- every list of packets ---------------------------------------------------

  /** Numbers only go up, and stay below what is expected next. */
  ghost predicate InOrder(handled: seq<Item>, first: nat, expected: nat) {
    && (forall i, j | 0 <= i < j < |handled| :: handled[i].sequence < handled[j].sequence)
    && (forall i | 0 <= i < |handled| :: first <= handled[i].sequence < expected)
  }

  lemma OrderExtends(done: seq<Item>, items: seq<Item>, first: nat, expected: nat, from: nat, to: nat)
    requires InOrder(done, first, expected) && first <= Longer(expected, from)
    requires InOrder(items, Longer(expected, from), to) && expected <= to
    ensures InOrder(done + items, first, to)
  {
  }

  lemma FreshInOrder(s: Intake, packet: seq<byte>, first: nat)
    requires InOrder(s.handled, first, s.expected) && Accepted(packet).Some? && !Overruns(s.expected, packet)
    requires first <= Longer(s.expected, Accepted(packet).value.firstSequence)
    ensures var h := Accepted(packet).value;
      InOrder(s.handled + Fresh(s.expected, packet, h), first, Raised(s.expected, h))
  {
    var h := Accepted(packet).value;
    FreshNumbers(s.expected, packet);
    if Wraps(h) {
      WrappedCounters(0, s.expected, h);
      hide Fresh, Accepted, DecodeHeader, Raised;
      assert s.handled + Fresh(s.expected, packet, h) == s.handled;
    } else {
      PlainCounters(0, s.expected, h);
      OrderExtends(s.handled, Fresh(s.expected, packet, h), first, s.expected, h.firstSequence, Raised(s.expected, h));
      hide Fresh, Accepted, DecodeHeader, Raised, InOrder;
    }
  }

  /** What is known of a list of packets: where it began, that numbers went up,
      and that every number from there to the next expected one is handed on,
      in a gap, or missing from a packet that was cut short. */
  ghost predicate Accounted(packets: seq<seq<byte>>) {
    var s, first := TakenAll(packets), FirstSeen(packets);
    && InOrder(s.handled, first, s.expected)
    && first <= s.expected
    && (s.expected == 0 ==> s.handled == [] && s.captureGaps == 0)
    && |s.handled| + s.captureGaps + MissingIn(packets) == s.expected - first
  }

  lemma OnePacketMore(packets: seq<seq<byte>>)
    requires packets != []
    ensures var front, packet := packets[..|packets| - 1], packets[|packets| - 1];
      var s, h := TakenAll(front), Accepted(packet);
      && TakenAll(packets) == Taken(s, packet) && MissingIn(packets) == MissingIn(front) + Missing(s.expected, packet)
      && FirstSeen(packets)
         == (if s.expected > 0 then FirstSeen(front) else if h.Some? then h.value.firstSequence else 0)
      && (OverrunAt(packets, |packets| - 1) <==> Overruns(s.expected, packet))
  {
    hide Taken, Missing, Accepted, Overruns;
  }

  /** One packet more: the account still holds exactly when it does not
      overrun. */
  lemma AccountedStep(packets: seq<seq<byte>>)
    requires packets != [] && Accounted(packets[..|packets| - 1])
    ensures Accounted(packets) <==> !OverrunAt(packets, |packets| - 1)
    ensures MissingIn(packets[..|packets| - 1]) == 0 && OverrunAt(packets, |packets| - 1) ==> !Told(packets)
    ensures TakenAll(packets).captureGaps < TakenAll(packets[..|packets| - 1]).captureGaps
        ==> OverrunAt(packets, |packets| - 1)
  {
    hide DecodeHeader, Fresh, MessagesOf, Raised, Gapped, Missing, Accepted, Overruns, InOrder, TakenAll, FirstSeen,
        MissingIn, OverrunAt, Taken;
    OnePacketMore(packets);
    var front, packet := packets[..|packets| - 1], packets[|packets| - 1];
    var s := TakenAll(front);
    if Accepted(packet).None? {
      NothingTaken(s, packet);
      EmptyOrder(s.handled, FirstSeen(front), 0, s.expected);
    } else {
      var h := Accepted(packet).value;
      TakenAccepted(s, packet, h);
      if Overruns(s.expected, packet) {
        OverrunCount(s.captureGaps, s.expected, packet);
      } else {
        PacketCount(s.captureGaps, s.expected, packet);
        EmptyOrder(s.handled, FirstSeen(front), h.firstSequence, s.expected);
        FreshInOrder(s, packet, FirstSeen(packets));
      }
    }
  }

  lemma EmptyOrder(handled: seq<Item>, first: nat, other: nat, expected: nat)
    requires InOrder(handled, first, expected) && (expected == 0 ==> handled == [])
    ensures expected == 0 ==> InOrder(handled, other, expected)
  {
  }

  lemma NothingTaken(s: Intake, packet: seq<byte>)
    requires Accepted(packet).None?
    ensures Taken(s, packet).(warned := s.warned) == s && Missing(s.expected, packet) == 0
        && !Overruns(s.expected, packet)
  {
    hide Accepted;
  }

  lemma NothingAccounted()
    ensures Accounted([]) && Told([])
  {
  }

  /** After every packet of a list, each venue number was decoded at most once,
      in increasing order, and every number is accounted for, if and only if no
      packet of it overran: whatever packets arrive, overlapping, repeated,
      reordered, missing or cut short. */
  lemma {:induction false} AllAccounted(packets: seq<seq<byte>>, upTo: nat)
    requires upTo <= |packets|
    ensures (forall n | 0 <= n <= upTo :: Accounted(packets[..n]))
        <==> (forall k | 0 <= k < upTo :: !OverrunAt(packets, k))
    decreases upTo
  {
    hide Accounted, OverrunAt;
    assert packets[..0] == [];
    if upTo == 0 {
      NothingAccounted();
    } else {
      AllAccounted(packets, upTo - 1);
      assert packets[..upTo][..upTo - 1] == packets[..upTo - 1];
      SameOverrun(packets, upTo);
      if Accounted(packets[..upTo - 1]) {
        AccountedStep(packets[..upTo]);
      }
    }
  }

  lemma SameOverrun(packets: seq<seq<byte>>, upTo: nat)
    requires 0 < upTo <= |packets|
    ensures OverrunAt(packets[..upTo], upTo - 1) <==> OverrunAt(packets, upTo - 1)
  {
    assert packets[..upTo][..upTo - 1] == packets[..upTo - 1];
    hide Overruns, TakenAll;
  }

  const NO_BYTES: seq<byte> := []
  const ONE_EMPTY: seq<Block> := [NO_BYTES]

  lemma OneEmptyBlock()
    ensures |EncodeBlocks(ONE_EMPTY)| == 2
  {
    assert ONE_EMPTY[1..] == [] && |EncodeBlocks(ONE_EMPTY[1..])| == 0;
  }

  /** A packet that wraps as the first one seen breaks the account: its message
      is decoded, and `expected` stays at zero. */
  lemma WrapBreaksAccount()
    ensures var h := Header(VERSION, DEEP_PLUS, 0, 0, 2, 1, 0, 0xffff_ffff_ffff_ffff, 0);
      var packet := EncodeHeader(h, 0) + EncodeBlocks(ONE_EMPTY) + NO_BYTES;
      TakenAll([packet]) == Intake(0, 0, false, [Item(0xffff_ffff_ffff_ffff, NO_BYTES)]) && !Accounted([packet])
  {
    var h := Header(VERSION, DEEP_PLUS, 0, 0, 2, 1, 0, 0xffff_ffff_ffff_ffff, 0);
    var packet := EncodeHeader(h, 0) + EncodeBlocks(ONE_EMPTY) + NO_BYTES;
    hide EncodeHeader, EncodeBlocks, DecodeHeader, MessagesOf, TakenAll, FirstSeen;
    OneEmptyBlock();
    PacketRoundTrip(h, 0, ONE_EMPTY, NO_BYTES);
    LastNumberTaken(packet, h);
  }

  /** One empty message under the last number there is. */
  lemma LastNumberTaken(packet: seq<byte>, h: Header)
    requires DecodeHeader(packet) == Some(h) && MessagesOf(packet, h) == ONE_EMPTY
    requires h.protocol == DEEP_PLUS && h.messageCount == 1 && h.firstSequence == 0xffff_ffff_ffff_ffff
    ensures TakenAll([packet]) == Intake(0, 0, false, [Item(h.firstSequence, NO_BYTES)])
    ensures FirstSeen([packet]) == h.firstSequence
  {
    hide DecodeHeader, MessagesOf, Taken, TakenAll, FirstSeen;
    OnePacket(packet, h);
    assert Fresh(0, packet, h) == [Item(h.firstSequence, NO_BYTES)];
  }

  // ---- what the counters tell --------------------------------------------------

  /** What was handed on and `captureGaps` make up all numbers passed. */
  ghost predicate Told(packets: seq<seq<byte>>) {
    |TakenAll(packets).handled| + TakenAll(packets).captureGaps == TakenAll(packets).expected - FirstSeen(packets)
  }

  /** Nothing new is missing from packet k. */
  ghost predicate WholeAt(packets: seq<seq<byte>>, k: nat)
    requires k < |packets|
  {
    Missing(TakenAll(packets[..k]).expected, packets[k]) == 0
  }

  /** The two counters tell the whole story after every packet if and only if
      no packet overran, or announced anything new and was cut short. */
  lemma {:induction false} GapsTellAll(packets: seq<seq<byte>>, upTo: nat)
    requires upTo <= |packets|
    ensures (forall n | 0 <= n <= upTo :: Told(packets[..n]))
        <==> (forall k | 0 <= k < upTo :: !OverrunAt(packets, k) && WholeAt(packets, k))
    decreases upTo
  {
    hide Accounted, OverrunAt, Told, WholeAt, MissingIn;
    assert packets[..0] == [];
    if upTo == 0 {
      NothingAccounted();
    } else {
      GapsTellAll(packets, upTo - 1);
      AllAccounted(packets, upTo - 1);
      NothingMissing(packets, upTo - 1);
      if forall k | 0 <= k < upTo - 1 :: !OverrunAt(packets, k) && WholeAt(packets, k) {
        assert Accounted(packets[..upTo - 1]);
        ToldStep(packets, upTo);
      }
    }
  }

  lemma ToldStep(packets: seq<seq<byte>>, upTo: nat)
    requires 0 < upTo <= |packets| && Accounted(packets[..upTo - 1]) && MissingIn(packets[..upTo - 1]) == 0
    ensures Told(packets[..upTo]) <==> !OverrunAt(packets, upTo - 1) && WholeAt(packets, upTo - 1)
  {
    assert packets[..upTo][..upTo - 1] == packets[..upTo - 1];
    AccountedStep(packets[..upTo]);
    SameOverrun(packets, upTo);
    MissingStep(packets, upTo);
    hide OverrunAt, WholeAt, MissingIn, TakenAll, FirstSeen, InOrder;
  }

  lemma MissingStep(packets: seq<seq<byte>>, upTo: nat)
    requires 0 < upTo <= |packets|
    ensures MissingIn(packets[..upTo]) == 0 <==> MissingIn(packets[..upTo - 1]) == 0 && WholeAt(packets, upTo - 1)
  {
    assert packets[..upTo][..upTo - 1] == packets[..upTo - 1];
    hide Missing, TakenAll;
  }

  lemma {:induction false} NothingMissing(packets: seq<seq<byte>>, upTo: nat)
    requires upTo <= |packets|
    ensures MissingIn(packets[..upTo]) == 0 <==> (forall k | 0 <= k < upTo :: WholeAt(packets, k))
    decreases upTo
  {
    hide WholeAt;
    if upTo == 0 {
      assert packets[..0] == [];
    } else {
      NothingMissing(packets, upTo - 1);
      MissingStep(packets, upTo);
      hide MissingIn;
    }
  }

  /** A packet that announces a message and was cut off behind its header: the
      number is passed, and neither decoded nor counted as a gap. */
  lemma CutPacketUncounted()
    ensures var h := Header(VERSION, DEEP_PLUS, 0, 0, 0, 1, 0, 1, 0);
      TakenAll([EncodeHeader(h, 0)]) == Intake(2, 0, false, []) && !Told([EncodeHeader(h, 0)])
  {
    var h := Header(VERSION, DEEP_PLUS, 0, 0, 0, 1, 0, 1, 0);
    hide EncodeHeader, DecodeHeader, TakenAll, FirstSeen;
    var packet := EncodeHeader(h, 0);
    assert packet[..40] == packet;
    HeaderRead(packet, h, 0);
    HeaderOnlyTaken(packet, h);
  }

  /** A bare header that announces message 1. */
  lemma HeaderOnlyTaken(packet: seq<byte>, h: Header)
    requires |packet| == HEADER_BYTES && DecodeHeader(packet) == Some(h)
    requires h.protocol == DEEP_PLUS && h.messageCount == h.firstSequence == 1
    ensures TakenAll([packet]) == Intake(2, 0, false, []) && FirstSeen([packet]) == 1
  {
    hide DecodeHeader, MessagesOf, Taken, TakenAll, FirstSeen;
    HeaderOnly(packet, h);
    OnePacket(packet, h);
  }

  /** The first packet accepted, on its own. */
  lemma OnePacket(packet: seq<byte>, h: Header)
    requires Accepted(packet) == Some(h)
    ensures TakenAll([packet]) == Intake(Raised(0, h), Gapped(0, 0, h), false, Fresh(0, packet, h))
    ensures FirstSeen([packet]) == h.firstSequence
  {
    hide Accepted, Fresh, Raised, Gapped, Taken;
    TakenAccepted(NOTHING_YET, packet, h);
    var packets: seq<seq<byte>> := [packet];
    assert packets[..0] == [];
    assert [] + Fresh(0, packet, h) == Fresh(0, packet, h);
  }

  lemma HeaderOnly(packet: seq<byte>, h: Header)
    requires |packet| == HEADER_BYTES
    ensures MessagesOf(packet, h) == []
  {
    assert packet[40..40] == [];
  }

  // ---- one venue behind many packets -------------------------------------------

  type Venue = nat -> seq<byte>

  /** Every message the packet holds is the venue's message of that number. */
  ghost predicate Honest(packet: seq<byte>, venue: Venue) {
    Accepted(packet).Some? ==>
      var h := Accepted(packet).value;
      forall i | 0 <= i < |MessagesOf(packet, h)| :: MessagesOf(packet, h)[i] == venue(h.firstSequence + i)
  }

  lemma {:induction false} HandledHonestly(packets: seq<seq<byte>>, venue: Venue)
    requires forall k | 0 <= k < |packets| :: Honest(packets[k], venue)
    ensures forall i | 0 <= i < |TakenAll(packets).handled| ::
              TakenAll(packets).handled[i].bytes == venue(TakenAll(packets).handled[i].sequence)
    decreases |packets|
  {
    if packets != [] {
      var front, packet := packets[..|packets| - 1], packets[|packets| - 1];
      HandledHonestly(front, venue);
      if Accepted(packet).Some? {
        FreshHonestly(TakenAll(front).expected, packet, venue);
      }
    }
  }

  lemma FreshHonestly(expected: u64, packet: seq<byte>, venue: Venue)
    requires Accepted(packet).Some? && Honest(packet, venue)
    ensures forall i | 0 <= i < |Fresh(expected, packet, Accepted(packet).value)| ::
              Fresh(expected, packet, Accepted(packet).value)[i].bytes
              == venue(Fresh(expected, packet, Accepted(packet).value)[i].sequence)
  {
  }

  /** All venue messages from one number to before another. */
  ghost function Whole(venue: Venue, first: nat, expected: nat): (items: seq<Item>)
    requires first <= expected
    ensures |items| == expected - first
  {
    seq(expected - first, i requires 0 <= i < expected - first => Item(first + i, venue(first + i)))
  }

  /** As many increasing numbers as the range holds are the whole range. */
  lemma {:induction false} FullRange(handled: seq<Item>, first: nat, expected: nat, i: nat)
    requires InOrder(handled, first, expected) && |handled| == expected - first && i < |handled|
    ensures handled[i].sequence == first + i
  {
    AtLeast(handled, first, expected, i);
    AtMost(handled, first, expected, i);
  }

  lemma {:induction false} AtLeast(handled: seq<Item>, first: nat, expected: nat, i: nat)
    requires InOrder(handled, first, expected) && i < |handled|
    ensures handled[i].sequence >= first + i
    decreases i
  {
    if i > 0 {
      AtLeast(handled, first, expected, i - 1);
    }
  }

  lemma {:induction false} AtMost(handled: seq<Item>, first: nat, expected: nat, i: nat)
    requires InOrder(handled, first, expected) && i < |handled|
    ensures handled[i].sequence <= expected - (|handled| - i)
    decreases |handled| - i
  {
    if i + 1 < |handled| {
      AtMost(handled, first, expected, i + 1);
    }
  }

  lemma WholeOrNot(handled: seq<Item>, venue: Venue, first: nat, expected: nat)
    requires InOrder(handled, first, expected) && first <= expected
    requires forall i | 0 <= i < |handled| :: handled[i].bytes == venue(handled[i].sequence)
    ensures handled == Whole(venue, first, expected) <==> |handled| == expected - first
  {
    if |handled| == expected - first {
      forall i | 0 <= i < |handled| ensures handled[i] == Whole(venue, first, expected)[i] {
        FullRange(handled, first, expected, i);
      }
    }
  }

  /** All messages passed were handed on, in order, and no gap was counted. */
  ghost predicate Lossless(packets: seq<seq<byte>>, venue: Venue) {
    var s, first := TakenAll(packets), FirstSeen(packets);
    first <= s.expected && s.captureGaps == 0 && s.handled == Whole(venue, first, s.expected)
  }

  ghost predicate AlwaysLossless(packets: seq<seq<byte>>, venue: Venue) {
    forall n | 0 <= n <= |packets| :: Lossless(packets[..n], venue)
  }

  lemma LosslessTold(packets: seq<seq<byte>>, venue: Venue)
    requires Lossless(packets, venue)
    ensures Told(packets)
  {
    hide TakenAll, FirstSeen;
  }

  lemma LosslessWhen(packets: seq<seq<byte>>, venue: Venue)
    requires Accounted(packets) && forall k | 0 <= k < |packets| :: Honest(packets[k], venue)
    ensures Lossless(packets, venue) <==> TakenAll(packets).captureGaps == 0 && MissingIn(packets) == 0
  {
    HandledHonestly(packets, venue);
    WholeOrNot(TakenAll(packets).handled, venue, FirstSeen(packets), TakenAll(packets).expected);
    hide TakenAll, MissingIn, FirstSeen, Honest, InOrder, Whole;
  }

  /** Gaps and missing numbers stay counted while no packet overruns. */
  lemma {:induction false} LossStays(packets: seq<seq<byte>>, n: nat, upTo: nat)
    requires n <= upTo <= |packets| && NoOverrun(packets)
    ensures TakenAll(packets[..n]).captureGaps <= TakenAll(packets[..upTo]).captureGaps
    ensures MissingIn(packets[..n]) <= MissingIn(packets[..upTo])
    decreases upTo
  {
    hide Accounted, OverrunAt;
    if n < upTo {
      LossStays(packets, n, upTo - 1);
      AllAccounted(packets, upTo - 1);
      assert packets[..upTo][..upTo - 1] == packets[..upTo - 1];
      SameOverrun(packets, upTo);
      AccountedStep(packets[..upTo]);
      hide TakenAll, Missing;
    }
  }

  /** However a venue's messages are packed, repeated, overlapped or reordered,
      the decoder is at every moment handed all of them from the first number
      seen, each once and in order, if and only if no packet overran, no gap was
      counted and nothing was missing. */
  lemma CleanFeed(packets: seq<seq<byte>>, venue: Venue)
    requires forall k | 0 <= k < |packets| :: Honest(packets[k], venue)
    ensures AlwaysLossless(packets, venue)
       <==> NoOverrun(packets) && TakenAll(packets).captureGaps == 0 && MissingIn(packets) == 0
  {
    hide Accounted, OverrunAt, Told, WholeAt, MissingIn, Lossless, TakenAll, Honest;
    assert packets[..|packets|] == packets;
    AllAccounted(packets, |packets|);
    if AlwaysLossless(packets, venue) {
      forall n | 0 <= n <= |packets| ensures Told(packets[..n]) {
        LosslessTold(packets[..n], venue);
      }
      GapsTellAll(packets, |packets|);
      LosslessWhen(packets, venue);
    } else if NoOverrun(packets) && TakenAll(packets).captureGaps == 0 && MissingIn(packets) == 0 {
      forall n | 0 <= n <= |packets| ensures Lossless(packets[..n], venue) {
        LossStays(packets, n, |packets|);
        LosslessWhen(packets[..n], venue);
      }
    }
  }

  /** Two receivers of one venue that start and end together: if one lost
      nothing, the other handed the same messages on if and only if it lost
      nothing either, however different their packets were. */
  lemma ReceiversAgree(p: seq<seq<byte>>, q: seq<seq<byte>>, venue: Venue)
    requires forall k | 0 <= k < |p| :: Honest(p[k], venue)
    requires forall k | 0 <= k < |q| :: Honest(q[k], venue)
    requires FirstSeen(p) == FirstSeen(q) && TakenAll(p).expected == TakenAll(q).expected
    requires AlwaysLossless(p, venue)
    ensures NoOverrun(q) && TakenAll(p).handled == TakenAll(q).handled <==> AlwaysLossless(q, venue)
  {
    CleanFeed(q, venue);
    AllAccounted(q, |q|);
    assert p[..|p|] == p && q[..|q|] == q;
    assert Lossless(p, venue);
    hide OverrunAt, TakenAll, FirstSeen, MissingIn, Whole, Honest;
    if NoOverrun(q) {
      assert Accounted(q);
      LosslessWhen(q, venue);
    }
    if AlwaysLossless(q, venue) {
      assert Lossless(q, venue);
    }
  }
}
