// One lost datagram from beginning to end: the hole it leaves, the request,
// the answer, and what becomes of its number.
module OneLoss {
  import opened Bytes
  import opened Collections
  import opened Messages
  import opened RepairWire
  import opened Buckets
  import opened Publishers
  import opened Tracking
  import opened Protocol
  import opened Safety
  import opened Guarantees
  import opened Continuations
  import opened EndToEnd

  /** One bucket, wanted from number 1. */
  function OneBucket(ringSize: nat, timing: Timing): Setup {
    Setup(1, ringSize, [0], 1, 0, timing)
  }

  function Log(m: OrderMessage): seq<OrderMessage> {
    [m, END_MESSAGE]
  }

  function EndDatagram(): seq<byte> {
    DgramEncode(0, 2, Encode(END_MESSAGE))
  }

  /** What the server answers about number 1 once two messages are stored: the
      message, or, from a ring of one slot, that it is no longer held. */
  function AnswerTo(m: OrderMessage, ringSize: nat): Frame {
    Frame(0, 1, if ringSize > 1 then Some(Encode(m)) else None)
  }

  const UNCONNECTED: Repair := Repair(false, [], 0)
  const CONNECTED: Repair := Repair(true, [], 0)

  const WAITING: Bucket := Bucket(0, true, false, 1, map[2 := END_MESSAGE], {}, map[1 := Hole(0, 0)], NO_STATS)

  /** A world of one bucket with everything published. */
  function Stage(m: OrderMessage, ringSize: nat, t: Tracked, repair: Repair, up: seq<byte>, down: seq<byte>,
                 pending: seq<Request>, owed: seq<Frame>, clock: nat): World
    requires ringSize > 0
  {
    World([RingOf(Log(m), ringSize)], [Log(m)], true, map[EndDatagram() := (0, 2)], [t],
          repair, up, down, false, pending, owed, clock)
  }

  /** How many bytes that answer takes. */
  function AnswerSize(ringSize: nat): nat {
    if ringSize > 1 then 41 else 12
  }

  function Steps(m: OrderMessage, ringSize: nat, late: nat): seq<Step> {
    [Publish(m), Finish, Send(0, 2), Receive(0, EndDatagram()), Elapse(late), Poll(0, true, true), Serve,
     Read(AnswerSize(ringSize)), Deliver(0)]
  }

  function Published(m: OrderMessage, ringSize: nat, finished: bool, sent: map<seq<byte>, (nat, nat)>): World
    requires ringSize > 0
  {
    var log := if finished then Log(m) else [m];
    World([RingOf(log, ringSize)], [log], finished, sent, [NewTracked(0, 1)], UNCONNECTED, [], [], false, [], [], 0)
  }

  lemma PublishedFirst(c: Setup, m: OrderMessage)
    requires c.ringSize > 0 && c == OneBucket(c.ringSize, c.timing) && m.kind != END && Terminated(m.symbol)
    ensures Leads(c, Start(c), Publish(m), Published(m, c.ringSize, false, map[]))
  {
    hide Encode, BucketOf, RingOf, Stored;
    var w := Start(c);
    RingAppend([], m, c.ringSize);
    NoMessages(c.ringSize);
    assert [] + [m] == [m];
    assert BucketOf(m.symbol, 1) == 0 by {
      OnlyBucket(m.symbol);
    }
    assert w.rings == [NewRing(c.ringSize)] && w.logs == [[]] && w.subs == [NewTracked(0, 1)];
  }

  lemma OnlyBucket(symbol: Symbol)
    ensures BucketOf(symbol, 1) == 0
  {
  }

  lemma NoMessages(ringSize: nat)
    requires ringSize > 0
    ensures RingOf([], ringSize) == NewRing(ringSize)
  {
  }

  lemma FinishedSecond(c: Setup, m: OrderMessage)
    requires c.ringSize > 0 && c == OneBucket(c.ringSize, c.timing)
    ensures Leads(c, Published(m, c.ringSize, false, map[]), Finish, Published(m, c.ringSize, true, map[]))
  {
    hide Encode, RingOf, Stored;
    var w := Published(m, c.ringSize, false, map[]);
    RingAppend([m], END_MESSAGE, c.ringSize);
    assert [m] + [END_MESSAGE] == Log(m);
    var v := After(c, w, Finish);
    assert v.rings == [RingOf(Log(m), c.ringSize)] && v.logs == [Log(m)];
  }

  lemma EndSent(c: Setup, m: OrderMessage)
    requires c.ringSize > 0 && c == OneBucket(c.ringSize, c.timing)
    ensures Leads(c, Published(m, c.ringSize, true, map[]), Send(0, 2),
                  Published(m, c.ringSize, true, map[EndDatagram() := (0, 2)]))
  {
    hide Encode, RingOf, DgramEncode;
  }

  function Noticed(): Tracked {
    Tracked(WAITING, Record(1, 2, map[1 := 0], [], map[], [], 1))
  }

  /** The end marker arrives first, and the number it skipped is noticed. */
  lemma EndReceived(c: Setup, m: OrderMessage)
    requires c.ringSize > 0 && c == OneBucket(c.ringSize, c.timing)
    ensures Leads(c, Published(m, c.ringSize, true, map[EndDatagram() := (0, 2)]), Receive(0, EndDatagram()),
                  Stage(m, c.ringSize, Noticed(), UNCONNECTED, [], [], [], [], 0))
  {
    hide EndDatagram, RingOf, DgramDecode, TAccept, Noticed;
    EndDecodes();
    HoleNoticed();
  }

  lemma EndDecodes()
    ensures DgramDecode(EndDatagram()) == Some(Dgram(0, 2, END_MESSAGE))
  {
    hide Encode, DgramEncode, DgramDecode;
    RoundTrip(END_MESSAGE);
    DgramExact(EndDatagram(), Dgram(0, 2, END_MESSAGE));
    assert EndDatagram()[..45] == EndDatagram();
  }

  lemma HoleNoticed()
    ensures TAccept(NewTracked(0, 1), 2, END_MESSAGE, 0, 0) == Noticed()
  {
    var b := NewBucket(0, 1);
    var found := map s: u64 | b.next <= s < 2 && !Known(b, s) :: Hole(0, 0);
    assert found == map[1 := Hole(0, 0)];
    var c := Accept(b, 2, END_MESSAGE, 0, 0);
    assert c == WAITING;
    assert NewHoles(b, c) == {1};
  }

  lemma Later(c: Setup, m: OrderMessage, late: nat)
    requires c.ringSize > 0 && c == OneBucket(c.ringSize, c.timing)
    ensures Leads(c, Stage(m, c.ringSize, Noticed(), UNCONNECTED, [], [], [], [], 0), Elapse(late),
                  Stage(m, c.ringSize, Noticed(), UNCONNECTED, [], [], [], [], late))
  {
    hide RingOf, EndDatagram;
  }

  lemma StageShaped(c: Setup, m: OrderMessage, t: Tracked, repair: Repair, up: seq<byte>, down: seq<byte>,
                    pending: seq<Request>, owed: seq<Frame>, clock: nat)
    requires c.ringSize > 0 && c == OneBucket(c.ringSize, c.timing) && t.b.id == 0
    ensures Shaped(c, Stage(m, c.ringSize, t, repair, up, down, pending, owed, clock))
  {
    hide RingOf, EndDatagram;
  }

  function Requested(late: nat): Tracked {
    Tracked(WAITING.(holes := map[1 := Hole(0, late)], stats := NO_STATS.(requests := 1)),
            Record(1, 2, map[1 := 0], [Ask(late, [1])], map[], [], 1))
  }

  const REQUEST: Request := Request(0, [1])

  /** The tick that finds the hole due asks for exactly its number. */
  lemma HoleAskedFor(c: Setup, m: OrderMessage, late: nat)
    requires c.ringSize > 0 && c == OneBucket(c.ringSize, c.timing) && c.timing.nakDelay < late <= c.timing.giveup
    ensures Leads(c, Stage(m, c.ringSize, Noticed(), UNCONNECTED, [], [], [], [], late), Poll(0, true, true),
                  Stage(m, c.ringSize, Requested(late), CONNECTED, EncodeRequest(REQUEST), [], [REQUEST], [], late))
  {
    StageShaped(c, m, Noticed(), UNCONNECTED, [], [], [], [], late);
    var w := Stage(m, c.ringSize, Noticed(), UNCONNECTED, [], [], [], [], late);
    assert Noticed().b == WAITING && w.subs[0] == Noticed();
    hide RingOf, EndDatagram, Nak, TNak, EncodeRequest, Requested, Noticed, Shaped, Leads;
    TickAsks(c.timing, late);
    PollLeads(c, w, 0);
    assert [] + EncodeRequest(REQUEST) == EncodeRequest(REQUEST) && [] + [REQUEST] == [REQUEST];
    assert [Noticed()][0 := Requested(late)] == [Requested(late)];
  }

  lemma TickAsks(timing: Timing, late: nat)
    requires timing.nakDelay < late <= timing.giveup
    ensures Nak(WAITING, UNCONNECTED, late, timing, true, true) == NakResult(Requested(late).b, CONNECTED, [1])
    ensures TNak(Noticed(), UNCONNECTED, late, timing, true, true) == Requested(late)
  {
    assert Expired(WAITING, late, timing.giveup) == {};
    assert Expire(WAITING, late, timing.giveup) == WAITING;
    assert EligibleHoles(WAITING, late, timing) == {1};
    AscendingUnique(Ascending({1}), [1]);
    assert Batch(WAITING, late, timing) == [1];
    assert Asked(WAITING, [1], late) == Requested(late).b;
    assert map[] + (map s | s in Expired(WAITING, late, timing.giveup) :: TimedOut(late)) == map[];
    assert [] + [Ask(late, [1])] == [Ask(late, [1])];
  }

  /** The server answers: it sends the message, or says that it is gone. */
  lemma HoleAnswered(c: Setup, m: OrderMessage, late: nat)
    requires c.ringSize > 0 && c == OneBucket(c.ringSize, c.timing)
    ensures var f := AnswerTo(m, c.ringSize);
      Leads(c,
        Stage(m, c.ringSize, Requested(late), CONNECTED, EncodeRequest(REQUEST), [], [REQUEST], [], late),
        Serve,
        Stage(m, c.ringSize, Requested(late), CONNECTED, [], EncodeFrames([f]), [], [f], late))
  {
    var w := Stage(m, c.ringSize, Requested(late), CONNECTED, EncodeRequest(REQUEST), [], [REQUEST], [], late);
    StageShaped(c, m, Requested(late), CONNECTED, EncodeRequest(REQUEST), [], [REQUEST], [], late);
    hide RingOf, EndDatagram, EncodeRequest, ReadRequest, EncodeFrames, Answers, Encode, Requested, AnswerTo, Shaped,
        Leads;
    RequestRoundTrip(REQUEST, [], 1);
    assert EncodeRequest(REQUEST) + [] == EncodeRequest(REQUEST);
    OneAnswer(m, c.ringSize);
    ServeOne(c, w, REQUEST, [AnswerTo(m, c.ringSize)]);
  }

  lemma OneAnswer(m: OrderMessage, ringSize: nat)
    requires ringSize > 0
    ensures Answers(RingOf(Log(m), ringSize), 0, [1]) == [AnswerTo(m, ringSize)]
  {
    hide RingOf, Answer, Encode, Answers;
    RingAnswers(Log(m), ringSize, 0, 1);
  }

  function Answered(m: OrderMessage, ringSize: nat, late: nat): Tracked {
    var t := Requested(late);
    if ringSize > 1 then
      t.(b := t.b.(holes := map[], parked := map[2 := END_MESSAGE, 1 := m], stats := t.b.stats.(repaired := 1)))
    else
      t.(b := t.b.(holes := map[], gone := {1}), r := t.r.(writtenOff := map[1 := NoLongerHeld]))
  }

  lemma AnswerReceived(c: Setup, m: OrderMessage, late: nat)
    requires c.ringSize > 0 && c == OneBucket(c.ringSize, c.timing) && Terminated(m.symbol)
    ensures var f := AnswerTo(m, c.ringSize);
      Leads(c,
        Stage(m, c.ringSize, Requested(late), CONNECTED, [], EncodeFrames([f]), [], [f], late),
        Read(AnswerSize(c.ringSize)),
        Stage(m, c.ringSize, Answered(m, c.ringSize, late), CONNECTED, [], [], [], [], late))
  {
    var f := AnswerTo(m, c.ringSize);
    var w := Stage(m, c.ringSize, Requested(late), CONNECTED, [], EncodeFrames([f]), [], [f], late);
    StageShaped(c, m, Requested(late), CONNECTED, [], EncodeFrames([f]), [], [f], late);
    hide RingOf, EndDatagram, EncodeFrames, AnswerTo, AnswerSize, ParseFrames, ApplyAll, Requested, Answered, Shaped,
        Leads;
    OneFrame(m, c.ringSize);
    ReadAll(c, w, [f]);
    FrameApplied(m, c.ringSize, late);
  }

  lemma OneFrame(m: OrderMessage, ringSize: nat)
    ensures |EncodeFrames([AnswerTo(m, ringSize)])| == AnswerSize(ringSize) <= REPAIR_BUF_CAP
    ensures ParseFrames(EncodeFrames([AnswerTo(m, ringSize)])) == Parse([AnswerTo(m, ringSize)], [], false)
  {
    hide EncodeFrame, Encode;
    var f := AnswerTo(m, ringSize);
    assert [f][1..] == [];
    assert EncodeFrames([f]) == EncodeFrames([f]) + [];
    ParseUnique(EncodeFrames([f]), [f], []);
  }

  lemma FrameApplied(m: OrderMessage, ringSize: nat, late: nat)
    requires Terminated(m.symbol)
    ensures ApplyAll([Requested(late)], [AnswerTo(m, ringSize)]) == [Answered(m, ringSize, late)]
  {
    hide Encode, Decode;
    RoundTrip(m);
    var t, f := Requested(late), AnswerTo(m, ringSize);
    assert t.b.holes - {1} == map[];
    assert TFrame(t, f) == Answered(m, ringSize, late);
    assert ApplyOne([t], f) == [Answered(m, ringSize, late)];
    assert [f][1..] == [];
  }

  /** At the end: number 1 was delivered, or counted unrecoverable. */
  function Finished(m: OrderMessage, ringSize: nat, late: nat): Tracked {
    var t := Answered(m, ringSize, late);
    var first := if ringSize > 1 then Delivered(m) else Lost;
    var stats := if ringSize > 1 then t.b.stats.(delivered := 1) else t.b.stats.(unrecoverable := 1);
    Tracked(t.b.(done := true, next := 3, parked := map[], gone := {}, stats := stats),
            t.r.(released := [first, Ended]))
  }

  lemma AllReleased(c: Setup, m: OrderMessage, late: nat)
    requires c.ringSize > 0 && c == OneBucket(c.ringSize, c.timing) && m.kind != END
    ensures Leads(c, Stage(m, c.ringSize, Answered(m, c.ringSize, late), CONNECTED, [], [], [], [], late), Deliver(0),
                  Stage(m, c.ringSize, Finished(m, c.ringSize, late), CONNECTED, [], [], [], [], late))
  {
    var t, u := Answered(m, c.ringSize, late), Finished(m, c.ringSize, late);
    StageShaped(c, m, t, CONNECTED, [], [], [], [], late);
    hide RingOf, EndDatagram, TRelease, Answered, Finished, Shaped, Leads;
    BothReleased(m, c.ringSize, late);
    DeliverLeads(c, Stage(m, c.ringSize, t, CONNECTED, [], [], [], [], late), 0);
    assert [t][0 := u] == [u];
  }

  /** With number 1 passed and the end marker still parked. */
  function Passed(m: OrderMessage, ringSize: nat, late: nat): Tracked {
    var t := Answered(m, ringSize, late);
    var first := if ringSize > 1 then Delivered(m) else Lost;
    var stats := if ringSize > 1 then t.b.stats.(delivered := 1) else t.b.stats.(unrecoverable := 1);
    Tracked(t.b.(next := 2, parked := map[2 := END_MESSAGE], gone := {}, stats := stats), t.r.(released := [first]))
  }

  lemma FirstOut(m: OrderMessage, ringSize: nat, late: nat)
    requires m.kind != END
    ensures ReleaseOne(Answered(m, ringSize, late).b).Some?
    ensures TReleaseOne(Answered(m, ringSize, late)) == Passed(m, ringSize, late)
  {
    var t := Answered(m, ringSize, late);
    assert t.b.parked - {1} == map[2 := END_MESSAGE];
    assert {1} - {1} == {};
  }

  lemma EndOut(m: OrderMessage, ringSize: nat, late: nat)
    ensures ReleaseOne(Passed(m, ringSize, late).b).Some?
    ensures TReleaseOne(Passed(m, ringSize, late)) == Finished(m, ringSize, late)
    ensures ReleaseOne(Finished(m, ringSize, late).b).None?
  {
    assert Passed(m, ringSize, late).b.parked - {2} == map[];
  }

  lemma BothReleased(m: OrderMessage, ringSize: nat, late: nat)
    requires m.kind != END
    ensures TRelease(Answered(m, ringSize, late)) == Finished(m, ringSize, late)
  {
    hide ReleaseAll, ReleaseOne, TReleaseOne, TRelease, Answered, Passed, Finished;
    FirstOut(m, ringSize, late);
    EndOut(m, ringSize, late);
    ReleaseStep(Answered(m, ringSize, late));
    ReleaseStep(Passed(m, ringSize, late));
    NoRelease(Finished(m, ringSize, late));
  }

  /** A run in which the datagram of message 1 is never sent, and still its
      bucket is done in the end: with exactly that message handed on and nothing
      lost from a ring that still holds it; and otherwise with nothing handed on
      and its number written off, before its hole is given up, because the server
      said so in a frame of no length. */
  ghost predicate Closes(c: Setup, ws: seq<World>, steps: seq<Step>, m: OrderMessage) {
    && IsRun(c, ws, steps) && |ws| == 10
    && Send(0, 1) !in steps
    && |c.joined| == |ws[9].subs| == 1
    && var t, holds := ws[9].subs[0], c.ringSize > 1;
       && t.b.done && (holds ==> CleanSession(c, ws[9]))
       && t.b.stats.unrecoverable == (if holds then 0 else 1)
       && t.r.writtenOff == (if holds then map[] else map[1 := NoLongerHeld])
       && CallbackLog(c, ws, steps, 9, 0) == if holds then [m] else []
  }

  function Worlds(c: Setup, m: OrderMessage, late: nat): (ws: seq<World>)
    requires c.ringSize > 0
    ensures |ws| == 10
  {
    var size, f := c.ringSize, AnswerTo(m, c.ringSize);
    [Start(c), Published(m, size, false, map[]), Published(m, size, true, map[]),
     Published(m, size, true, map[EndDatagram() := (0, 2)]),
     Stage(m, size, Noticed(), UNCONNECTED, [], [], [], [], 0),
     Stage(m, size, Noticed(), UNCONNECTED, [], [], [], [], late),
     Stage(m, size, Requested(late), CONNECTED, EncodeRequest(REQUEST), [], [REQUEST], [], late),
     Stage(m, size, Requested(late), CONNECTED, [], EncodeFrames([f]), [], [f], late),
     Stage(m, size, Answered(m, size, late), CONNECTED, [], [], [], [], late),
     Stage(m, size, Finished(m, size, late), CONNECTED, [], [], [], [], late)]
  }

  /** For every message and every ring there is such a run, whatever the timing,
      as long as a hole is asked for before it is given up. */
  lemma LossCloses(m: OrderMessage, ringSize: nat, timing: Timing)
    requires m.kind != END && Terminated(m.symbol) && ringSize > 0 && timing.nakDelay < timing.giveup
    ensures exists ws, steps :: Closes(OneBucket(ringSize, timing), ws, steps, m)
  {
    hide Worlds, Stage, IsRun, CleanSession, CallbackLog, Steps;
    var c, late := OneBucket(ringSize, timing), timing.giveup;
    var ws, steps := Worlds(c, m, late), Steps(m, ringSize, late);
    NeverSent(m, ringSize, late);
    RunLeads(c, m, late);
    LastWorld(c, m, late);
    EndsDone(c, ws, steps, m, late);
    assert Closes(c, ws, steps, m);
  }

  lemma NeverSent(m: OrderMessage, ringSize: nat, late: nat)
    ensures Send(0, 1) !in Steps(m, ringSize, late)
  {
    hide AnswerSize, EndDatagram;
  }

  lemma LastWorld(c: Setup, m: OrderMessage, late: nat)
    requires c.ringSize > 0
    ensures Worlds(c, m, late)[9]
         == Stage(m, c.ringSize, Finished(m, c.ringSize, late), CONNECTED, [], [], [], [], late)
  {
    hide Stage, Finished, Start, Published, Noticed, Requested, Answered, EndDatagram, EncodeFrames, EncodeRequest,
        AnswerTo;
  }

  lemma RunLeads(c: Setup, m: OrderMessage, late: nat)
    requires m.kind != END && Terminated(m.symbol) && c.ringSize > 0 && c == OneBucket(c.ringSize, c.timing)
    requires c.timing.nakDelay < late <= c.timing.giveup
    ensures IsRun(c, Worlds(c, m, late), Steps(m, c.ringSize, late))
  {
    hide Leads, Start, Published, Stage, Noticed, Requested, Answered, Finished, EndDatagram, EncodeFrames,
        EncodeRequest, AnswerTo, AnswerSize;
    PublishedFirst(c, m);
    FinishedSecond(c, m);
    EndSent(c, m);
    EndReceived(c, m);
    Later(c, m, late);
    HoleAskedFor(c, m, late);
    HoleAnswered(c, m, late);
    AnswerReceived(c, m, late);
    AllReleased(c, m, late);
    LeadsRun(c, Worlds(c, m, late), Steps(m, c.ringSize, late));
  }

  lemma EndsDone(c: Setup, ws: seq<World>, steps: seq<Step>, m: OrderMessage, late: nat)
    requires IsRun(c, ws, steps) && |ws| == 10 && c.ringSize > 0 && c == OneBucket(c.ringSize, c.timing)
    requires ws[9] == Stage(m, c.ringSize, Finished(m, c.ringSize, late), CONNECTED, [], [], [], [], late)
    ensures |ws[9].subs| == 1 && (c.ringSize > 1 ==> CleanSession(c, ws[9]))
    ensures var t, holds := ws[9].subs[0], c.ringSize > 1;
      && t.b.done && t.b.stats.unrecoverable == (if holds then 0 else 1)
      && t.r.writtenOff == (if holds then map[] else map[1 := NoLongerHeld])
    ensures CallbackLog(c, ws, steps, 9, 0) == if c.ringSize > 1 then [m] else []
  {
    hide IsRun, CallbackLog, RingOf, Handed;
    ShapedThroughout(c, ws, steps, 9);
    CallbackIsReleased(c, ws, steps, 9, 0);
    var rs := ws[9].subs[0].r.released;
    assert rs == [rs[0], Ended];
    TwoHanded(rs[0]);
  }

  lemma TwoHanded(first: Release)
    ensures Handed([first, Ended]) == if first.Delivered? then [first.message] else []
  {
    assert [first, Ended][..1] == [first] && [first][..0] == [];
    assert Handed([first]) == if first.Delivered? then [first.message] else [];
  }
}
