// Losses can be recovered: from any moment of any run, how a hole is filled
// and what was blocked behind it is handed on.
module Recovery {
  import opened Bytes
  import opened Messages
  import opened RepairWire
  import opened Buckets
  import opened Publishers
  import opened Tracking
  import opened Protocol
  import opened Safety
  import opened Guarantees
  import opened Continuations

  lemma ClosedAlready(c: Setup, w: World)
    requires Safe(c, w) && !w.repair.open
    ensures Hangup(w) == w
  {
    assert WireTrue(w.repair.open, w.repair.held, w.up, w.down, w.cut, w.pending, w.owed);
    hide Shaped, SubsTrue, SentTrue, PublisherTrue, RequestsHonest, FramesHonest;
  }

  /** The world with the repair connection down and no byte in flight. */
  lemma Disconnect(c: Setup, ws: seq<World>, steps: seq<Step>) returns (us: seq<World>, todo: seq<Step>)
    requires IsRun(c, ws, steps)
    ensures IsRun(c, us, todo) && ws <= us && steps <= todo && |todo| <= |steps| + 1
    ensures |ws| == |steps| + 1 && |us| == |todo| + 1
    ensures us[|us| - 1] == Hangup(ws[|ws| - 1])
  {
    assert |ws| == |steps| + 1;
    hide IsRun, Safe, Hangup, Leads, Shaped;
    RunSafe(c, ws, steps, |steps|);
    var w := ws[|ws| - 1];
    if w.repair.open {
      StillShaped(c, w);
      CloseLeads(c, w);
      us, todo := ws + [Hangup(w)], steps + [Close];
      Extend(c, ws, steps, Close, Hangup(w));
    } else {
      ClosedAlready(c, w);
      us, todo := ws, steps;
    }
  }

  /** Nothing on the repair connection, no reconnect held back, something due. */
  ghost predicate Idle(c: Setup, w: World, j: nat) {
    && Safe(c, w) && j < |w.subs| && w == Hangup(w)
    && w.repair.blockedUntil <= w.clock && Due(c, w, j) != []
  }

  function Named(c: Setup, w: World, j: nat): Request
    requires j < |w.subs|
  {
    Request(w.subs[j].b.id, Due(c, w, j))
  }

  /** After a tick of bucket j that connects and writes. */
  function Asking(c: Setup, w: World, j: nat): World
    requires j < |w.subs|
  {
    w.(subs := w.subs[j := TNak(w.subs[j], w.repair, w.clock, c.timing, true, true)],
       repair := w.repair.(open := true), up := EncodeRequest(Named(c, w, j)), pending := [Named(c, w, j)])
  }

  function FramesFor(c: Setup, w: World, j: nat): seq<Frame>
    requires j < |w.subs| && w.subs[j].b.id < |w.rings| && |w.rings[w.subs[j].b.id].slots| > 0
  {
    Answers(w.rings[w.subs[j].b.id], w.subs[j].b.id, Due(c, w, j))
  }

  /** Once the server has answered. */
  function Answering(c: Setup, w: World, j: nat): World
    requires j < |w.subs| && w.subs[j].b.id < |w.rings| && |w.rings[w.subs[j].b.id].slots| > 0
  {
    Asking(c, w, j).(up := [], down := EncodeFrames(FramesFor(c, w, j)), owed := FramesFor(c, w, j), pending := [])
  }

  /** Once the answer was read. */
  function Filling(c: Setup, w: World, j: nat): World
    requires j < |w.subs| && w.subs[j].b.id < |w.rings| && |w.rings[w.subs[j].b.id].slots| > 0
  {
    Answering(c, w, j).(subs := ApplyAll(Asking(c, w, j).subs, FramesFor(c, w, j)), down := [], owed := [])
  }

  lemma IdleWorld(c: Setup, w: World, j: nat)
    requires Idle(c, w, j)
    ensures j < |w.subs|
    ensures Shaped(c, w) && !w.repair.open && w.repair.held == [] && w.up == [] && w.down == [] && !w.cut
    ensures w.pending == [] && w.owed == [] && |w.rings| == |w.logs| == c.bucketCount && j < |c.joined|
    ensures var i := w.subs[j].b.id;
      i == c.joined[j] < c.bucketCount <= 0x1_0000 && |w.rings[i].slots| == c.ringSize > 0
          && w.rings[i] == RingOf(w.logs[i], c.ringSize)
    ensures ApartIds(w.subs) && Due(c, w, j) != [] && w.repair.blockedUntil <= w.clock
  {
    IdsApart(c, w);
    assert w.subs[j].b.id == c.joined[j];
  }

  /** A tick that finds something due, connects and writes, asks for it. */
  lemma DueAsked(c: Setup, w: World, j: nat)
    requires j < |w.subs| && !w.repair.open && w.repair.blockedUntil <= w.clock && Due(c, w, j) != []
    ensures var n := Nak(w.subs[j].b, w.repair, w.clock, c.timing, true, true);
      n.repair == w.repair.(open := true) && n.asked == Due(c, w, j)
  {
    hide Batch, Expire, Asked;
  }

  lemma TickSends(c: Setup, w: World, j: nat)
    requires Idle(c, w, j)
    ensures Leads(c, w, Poll(j, true, true), Asking(c, w, j))
  {
    hide Due, EncodeRequest, Safe, Shaped, Leads, Nak, TNak, Idle, RingOf, ApartIds;
    IdleWorld(c, w, j);
    DueAsked(c, w, j);
    PollLeads(c, w, j);
    assert [] + EncodeRequest(Named(c, w, j)) == EncodeRequest(Named(c, w, j))
        && [] + [Named(c, w, j)] == [Named(c, w, j)];
  }

  lemma ServerAnswers(c: Setup, w: World, j: nat)
    requires Idle(c, w, j) && Shaped(c, Asking(c, w, j))
    ensures w.subs[j].b.id < |w.rings| && |w.rings[w.subs[j].b.id].slots| > 0
    ensures Leads(c, Asking(c, w, j), Serve, Answering(c, w, j))
  {
    hide Idle, Safe, Shaped, Leads, EncodeRequest, ReadRequest, Answers, EncodeFrames, TNak, RingOf, ApartIds, Batch;
    IdleWorld(c, w, j);
    RequestRoundTrip(Named(c, w, j), [], c.bucketCount);
    assert EncodeRequest(Named(c, w, j)) + [] == EncodeRequest(Named(c, w, j));
    ServeOne(c, Asking(c, w, j), Named(c, w, j), FramesFor(c, w, j));
  }

  lemma AnswerRead(c: Setup, w: World, j: nat)
    requires Idle(c, w, j)
    requires w.subs[j].b.id < |w.rings| && |w.rings[w.subs[j].b.id].slots| > 0
    requires Shaped(c, Answering(c, w, j))
    ensures Leads(c, Answering(c, w, j), Read(|Answering(c, w, j).down|), Filling(c, w, j))
  {
    hide Idle, Safe, Shaped, Leads, RingOf, ApartIds, ParseFrames, EncodeFrames, ApplyAll, Answer, TNak,
        EncodeRequest, Batch;
    IdleWorld(c, w, j);
    var x, fs := Answering(c, w, j), FramesFor(c, w, j);
    assert x.repair.open && x.repair.held == [] && x.owed == fs && x.down == EncodeFrames(fs)
        && |fs| <= MAX_REPAIR_BATCH;
    assert Filling(c, w, j) == x.(subs := ApplyAll(x.subs, fs), down := [], owed := []);
    hide Answering, Filling, FramesFor;
    FramesLength(fs);
    assert EncodeFrames(fs) == EncodeFrames(fs) + [];
    ParseUnique(EncodeFrames(fs), fs, []);
    ReadAll(c, x, fs);
  }

  lemma AnswerParks(c: Setup, w: World, j: nat, s: u64)
    requires Idle(c, w, j) && s in Due(c, w, j)
    requires w.subs[j].b.id < |w.rings| && |w.rings[w.subs[j].b.id].slots| > 0 && w.subs[j].b.id < |w.logs|
    requires Held(s, |w.logs[w.subs[j].b.id]|, c.ringSize)
    ensures |Filling(c, w, j).subs| == |w.subs| && s in Filling(c, w, j).subs[j].b.parked
  {
    IdleWorld(c, w, j);
    SafeBucket(c, w, j);
    var t, i := w.subs[j], w.subs[j].b.id;
    BatchShape(Expire(t.b, w.clock, c.timing.giveup), w.clock, c.timing);
    assert s in t.b.holes && t.b.next <= s;
    TickKeepsNext(t, w.repair, w.clock, c.timing);
    TickKeepsApart(c, w, j);
    hide Safe, Shaped, TNak, ApplyAll, Batch, Expire, RingOf, Answer, Encode, Covered, Orderly, ApartIds, Idle;
    var k :| 0 <= k < |Due(c, w, j)| && Due(c, w, j)[k] == s;
    RingAnswers(w.logs[i], c.ringSize, i, s);
    FramesPark(Asking(c, w, j).subs, FramesFor(c, w, j), j, k);
  }

  lemma TickKeepsApart(c: Setup, w: World, j: nat)
    requires j < |w.subs| && ApartIds(w.subs)
    ensures ApartIds(Asking(c, w, j).subs)
        && Asking(c, w, j).subs[j] == TNak(w.subs[j], w.repair, w.clock, c.timing, true, true)
  {
    TickKeepsNext(w.subs[j], w.repair, w.clock, c.timing);
    hide TNak, EncodeRequest, Batch;
  }

  lemma TickKeepsNext(t: Tracked, r: Repair, now: nat, timing: Timing)
    ensures var u := TNak(t, r, now, timing, true, true);
      u.b.next == t.b.next && u.b.id == t.b.id && u.r.released == t.r.released
  {
  }

  /** Frames take nothing out of the parking area and never move a bucket on. */
  lemma {:induction false} ParkedStays(subs: seq<Tracked>, fs: seq<Frame>, j: nat, s: u64)
    requires j < |subs|
    ensures var t, u := subs[j], ApplyAll(subs, fs)[j];
      u.b.next == t.b.next && u.b.id == t.b.id && (s in t.b.parked ==> s in u.b.parked)
    decreases |fs|
  {
    if fs != [] {
      ParkedStays(ApplyOne(subs, fs[0]), fs[1..], j, s);
    }
  }

  /** Every repaired message not yet passed ends up parked. */
  lemma {:induction false} FramesPark(subs: seq<Tracked>, fs: seq<Frame>, j: nat, k: nat)
    requires ApartIds(subs) && j < |subs| && k < |fs|
    requires fs[k].bucket == subs[j].b.id && fs[k].sequence >= subs[j].b.next && fs[k].payload.Some?
    ensures fs[k].sequence in ApplyAll(subs, fs)[j].b.parked
    decreases |fs|
  {
    hide ApartIds, TFrame, ApplyOne;
    OneReached(subs, fs[0], j);
    FrameParks(subs[j], fs[0]);
    var after := ApplyOne(subs, fs[0]);
    if k == 0 {
      ParkedStays(after, fs[1..], j, fs[0].sequence);
    } else {
      FramesPark(after, fs[1..], j, k - 1);
    }
  }

  lemma FrameParks(t: Tracked, f: Frame)
    ensures var u := TFrame(t, f);
      && u.b.next == t.b.next && u.b.id == t.b.id
      && (f.sequence >= t.b.next && f.payload.Some? ==> f.sequence in u.b.parked)
  {
  }

  /** The run goes on for at most five steps and then s is parked in bucket j,
      with the message published under it. */
  ghost predicate GoesOnToPark(c: Setup, ws: seq<World>, steps: seq<Step>, us: seq<World>, todo: seq<Step>,
                               j: nat, s: u64)
  {
    && IsRun(c, us, todo) && ws <= us && steps <= todo && |todo| <= |steps| + 5 && |us| == |todo| + 1
    && j < |us[|todo|].subs|
    && var t := us[|todo|].subs[j];
       && t.b.id < |us[|todo|].logs| && 1 <= s <= |us[|todo|].logs[t.b.id]|
       && s in t.b.parked && t.b.parked[s] == us[|todo|].logs[t.b.id][s - 1]
  }

  /** What a safe world holds parked is what was published. */
  lemma ParkedTruly(c: Setup, w: World, j: nat, s: u64)
    requires Safe(c, w) && j < |w.subs| && s in w.subs[j].b.parked
    ensures var t := w.subs[j];
      t.b.id < |w.logs| && 1 <= s <= |w.logs[t.b.id]| && t.b.parked[s] == w.logs[t.b.id][s - 1]
  {
    assert SubTrue(c, w.subs[j], w.logs, w.clock);
    hide Sane;
  }

  lemma HungUp(c: Setup, w: World, j: nat)
    requires Safe(c, w) && Safe(c, Hangup(w)) && j < |w.subs| && Due(c, w, j) != [] && w.repair.blockedUntil <= w.clock
    ensures Idle(c, Hangup(w), j) && Due(c, Hangup(w), j) == Due(c, w, j)
    ensures Hangup(w).subs == w.subs && Hangup(w).logs == w.logs && Hangup(w).finished == w.finished
  {
    hide Safe, Batch, Expire;
  }

  /** Bucket j passed nothing on the way from w to v, and no log grew. */
  ghost predicate PassedNothing(w: World, v: World, j: nat) {
    && j < |w.subs| && j < |v.subs| && v.logs == w.logs && v.finished == w.finished
    && v.subs[j].b.next == w.subs[j].b.next && v.subs[j].r.released == w.subs[j].r.released
  }

  lemma AnswerPassesNothing(c: Setup, w: World, j: nat, s: u64)
    requires Idle(c, w, j)
    requires w.subs[j].b.id < |w.rings| && |w.rings[w.subs[j].b.id].slots| > 0
    ensures PassedNothing(w, Filling(c, w, j), j)
  {
    hide Safe, EncodeRequest, EncodeFrames, ApplyAll, Answers, TNak, Batch;
    var t := w.subs[j];
    TickKeepsNext(t, w.repair, w.clock, c.timing);
    ParkedStays(Asking(c, w, j).subs, FramesFor(c, w, j), j, s);
    ApplyAllKeepsReleased(Asking(c, w, j).subs, FramesFor(c, w, j), j);
  }

  /** From an idle world: three steps, and s is parked. */
  lemma FillFromIdle(c: Setup, us: seq<World>, todo: seq<Step>, j: nat, s: u64)
    returns (vs: seq<World>, done: seq<Step>)
    requires IsRun(c, us, todo) && |us| == |todo| + 1 && Idle(c, us[|todo|], j) && s in Due(c, us[|todo|], j)
    requires var w := us[|todo|]; w.subs[j].b.id < |w.logs| && Held(s, |w.logs[w.subs[j].b.id]|, c.ringSize)
    ensures IsRun(c, vs, done) && us <= vs && todo <= done && |done| == |todo| + 3 && |vs| == |done| + 1
    ensures Safe(c, vs[|done|]) && j < |vs[|done|].subs| && s in vs[|done|].subs[j].b.parked
    ensures PassedNothing(us[|todo|], vs[|done|], j)
  {
    hide IsRun, Due, Safe, Leads, Idle, Asking, Answering, Filling, FramesFor, RingOf, PassedNothing;
    var w := us[|todo|];
    IdleWorld(c, w, j);
    TickSends(c, w, j);
    Extend(c, us, todo, Poll(j, true, true), Asking(c, w, j));
    StillShaped(c, Asking(c, w, j));
    ServerAnswers(c, w, j);
    Extend(c, us + [Asking(c, w, j)], todo + [Poll(j, true, true)], Serve, Answering(c, w, j));
    StillShaped(c, Answering(c, w, j));
    AnswerRead(c, w, j);
    AnswerParks(c, w, j, s);
    AnswerPassesNothing(c, w, j, s);
    var last := Read(|Answering(c, w, j).down|);
    Extend(c, us + [Asking(c, w, j)] + [Answering(c, w, j)], todo + [Poll(j, true, true)] + [Serve], last,
        Filling(c, w, j));
    vs := us + [Asking(c, w, j)] + [Answering(c, w, j)] + [Filling(c, w, j)];
    done := todo + [Poll(j, true, true)] + [Serve] + [last];
  }

  /** From any moment: let the clock pass to `at`, take the connection down, ask
      and read the answer. */
  lemma Fill(c: Setup, ws: seq<World>, steps: seq<Step>, j: nat, s: u64, at: nat)
    returns (vs: seq<World>, done: seq<Step>)
    requires IsRun(c, ws, steps) && |ws| == |steps| + 1 && j < |c.joined|
    requires Shaped(c, ws[|steps|])
    requires var w := ws[|steps|];
      && w.clock <= at && w.repair.blockedUntil <= at && s in Due(c, w.(clock := at), j)
      && Held(s, |w.logs[c.joined[j]]|, c.ringSize)
    ensures IsRun(c, vs, done) && ws <= vs && steps <= done && |done| <= |steps| + 5 && |vs| == |done| + 1
    ensures Safe(c, vs[|done|]) && j < |vs[|done|].subs| && s in vs[|done|].subs[j].b.parked
    ensures PassedNothing(ws[|steps|], vs[|done|], j)
  {
    hide IsRun, Due, Safe, Hangup, Idle, Held, Leads;
    var w := ws[|steps|];
    assert w.subs[j].b.id == c.joined[j];
    var v := w.(clock := at);
    ElapseLeads(c, w, at);
    hide Shaped;
    Extend(c, ws, steps, Elapse(at), v);
    var us, todo := Disconnect(c, ws + [v], steps + [Elapse(at)]);
    RunSafe(c, us, todo, |todo|);
    HungUp(c, v, j);
    vs, done := FillFromIdle(c, us, todo, j, s);
  }

  /** In every run, at every moment: a hole whose message the ring still holds
      can be filled, whatever happened before and whatever state the repair
      connection is in, if at some time from now on, and no earlier than the
      next connect may be tried, it is due and among the lowest that fit one
      request. */
  lemma HoleCanBeFilled(c: Setup, ws: seq<World>, steps: seq<Step>, j: nat, s: u64, at: nat)
    requires IsRun(c, ws, steps) && |ws| == |steps| + 1 && j < |c.joined|
    requires Shaped(c, ws[|steps|])
    requires var w := ws[|steps|];
      && w.clock <= at && w.repair.blockedUntil <= at && s in Due(c, w.(clock := at), j)
      && Held(s, |w.logs[c.joined[j]]|, c.ringSize)
    ensures exists us, todo :: GoesOnToPark(c, ws, steps, us, todo, j, s)
  {
    hide IsRun, Due, Safe, Held, Shaped;
    var us, todo := Fill(c, ws, steps, j, s, at);
    ParkedTruly(c, us[|todo|], j, s);
    assert GoesOnToPark(c, ws, steps, us, todo, j, s);
  }

  /** The lowest hole that is due is among them. */
  lemma LowestIsDue(c: Setup, w: World, j: nat, s: u64)
    requires j < |w.subs|
    requires var live := Expire(w.subs[j].b, w.clock, c.timing.giveup).holes;
      Wanted(live, s, w.clock, c.timing) && forall x | Wanted(live, x, w.clock, c.timing) :: s <= x
    ensures s in Due(c, w, j)
  {
    hide Wanted, Expire, Batch;
    BatchShape(Expire(w.subs[j].b, w.clock, c.timing.giveup), w.clock, c.timing);
    assert |Due(c, w, j)| > 0 ==> Due(c, w, j)[0] in Due(c, w, j);
  }

  /** In particular the lowest hole that is due then. */
  lemma LowestHoleCanBeFilled(c: Setup, ws: seq<World>, steps: seq<Step>, j: nat, s: u64, at: nat)
    requires IsRun(c, ws, steps) && |ws| == |steps| + 1 && j < |c.joined|
    requires Shaped(c, ws[|steps|])
    requires var w := ws[|steps|];
      var live := Expire(w.subs[j].b, at, c.timing.giveup).holes;
      && w.clock <= at && w.repair.blockedUntil <= at
      && Wanted(live, s, at, c.timing) && (forall x | Wanted(live, x, at, c.timing) :: s <= x)
      && Held(s, |w.logs[c.joined[j]]|, c.ringSize)
    ensures exists us, todo :: GoesOnToPark(c, ws, steps, us, todo, j, s)
  {
    hide IsRun, Held, GoesOnToPark, Wanted, Expire, Due;
    LowestIsDue(c, ws[|steps|].(clock := at), j, s);
    hide Shaped;
    HoleCanBeFilled(c, ws, steps, j, s, at);
  }

  // ---- what was blocked is handed on ------------------------------------------

  /** The first moment at which a hole may be asked for. */
  function DueFrom(hole: Hole, timing: Timing): nat {
    if hole.asked == 0 then hole.noticed + timing.nakDelay + 1 else hole.asked + timing.nakRepeat + 1
  }

  /** The first moment from now on at which that can reach the server. */
  function AskedFrom(w: World, hole: Hole, timing: Timing): nat {
    var due := DueFrom(hole, timing);
    var reachable := if w.clock < w.repair.blockedUntil then w.repair.blockedUntil else w.clock;
    if due < reachable then reachable else due
  }

  /** The hole that blocks a bucket is due at that moment, if it still lives. */
  lemma BlockingHoleDue(c: Setup, w: World, j: nat)
    requires j < |w.subs| && HolesApart(w.subs[j].b)
    requires var b := w.subs[j].b;
      && b.next in b.holes && DueFrom(b.holes[b.next], c.timing) <= w.clock
      && w.clock - b.holes[b.next].noticed <= c.timing.giveup
    ensures w.subs[j].b.next in Due(c, w, j)
  {
    hide Due;
    LowestIsDue(c, w, j, w.subs[j].b.next);
  }

  /** The run goes on for at most six steps, in which bucket j hands on the
      message numbered s. */
  ghost predicate HandsOn(c: Setup, ws: seq<World>, steps: seq<Step>, us: seq<World>, todo: seq<Step>, j: nat, s: nat)
    requires IsRun(c, ws, steps) && |ws| == |steps| + 1 && j < |c.joined| && Shaped(c, ws[|steps|])
  {
    var log := ws[|steps|].logs[c.joined[j]];
    && IsRun(c, us, todo) && ws <= us && steps <= todo && |todo| <= |steps| + 6 && |us| == |todo| + 1
    && 1 <= s <= |log|
    && CallbackLog(c, ws, steps, |steps|, j) + [log[s - 1]] <= CallbackLog(c, us, todo, |todo|, j)
  }

  /** Releasing a bucket whose next message is parked hands that on first. */
  lemma FirstReleased(t: Tracked, m: OrderMessage)
    requires !t.b.done && t.b.next in t.b.parked && t.b.parked[t.b.next] == m && m.kind != END
    ensures Handed(t.r.released) + [m] <= Handed(TRelease(t).r.released)
  {
    var rs := ReleaseAll(t.b).1;
    assert rs[0] == Delivered(m) && rs == [rs[0]] + rs[1..];
    HandedAppend(t.r.released, rs);
    HandedAppend([rs[0]], rs[1..]);
    hide ReleaseAll;
    assert Handed([rs[0]][..0]) == [];
    assert Handed([rs[0]]) == [m];
    assert Handed(t.r.released) + (Handed([rs[0]]) + Handed(rs[1..]))
        == Handed(t.r.released) + [m] + Handed(rs[1..]);
  }

  /** A hole is no end marker, and a bucket with something parked is not done. */
  lemma StillWanted(c: Setup, ws: seq<World>, steps: seq<Step>, n: nat, us: seq<World>, todo: seq<Step>, j: nat, s: u64)
    requires IsRun(c, ws, steps) && n < |ws| && j < |c.joined| && Shaped(c, ws[n]) && s in ws[n].subs[j].b.holes
    requires IsRun(c, us, todo) && |us| == |todo| + 1 && PassedNothing(ws[n], us[|todo|], j)
    requires s in us[|todo|].subs[j].b.parked
    ensures !us[|todo|].subs[j].b.done
    ensures var log := ws[n].logs[c.joined[j]];
      1 <= s <= |log| && us[|todo|].subs[j].b.parked[s] == log[s - 1] && log[s - 1].kind != END
  {
    hide IsRun;
    BucketSafe(c, ws, steps, n, j);
    EndNeverMissing(c, ws, steps, n, j);
    DoneMeansComplete(c, us, todo, |todo|, j);
    RunSafe(c, us, todo, |todo|);
    hide Safe, Sane, Faithful;
    ParkedTruly(c, us[|todo|], j, s);
  }

  /** In every run, at every moment: the message a bucket waits for can still be
      handed on, as long as the ring holds it and the first moment at which it
      can be asked for comes before its hole is given up. */
  lemma BlockedMessageCanBeHandedOn(c: Setup, ws: seq<World>, steps: seq<Step>, j: nat)
    requires IsRun(c, ws, steps) && |ws| == |steps| + 1 && j < |c.joined|
    requires Shaped(c, ws[|steps|])
    requires var w, b := ws[|steps|], ws[|steps|].subs[j].b;
      && b.next in b.holes && Held(b.next, |w.logs[c.joined[j]]|, c.ringSize)
      && AskedFrom(w, b.holes[b.next], c.timing) - b.holes[b.next].noticed <= c.timing.giveup
    ensures exists us, todo :: HandsOn(c, ws, steps, us, todo, j, ws[|steps|].subs[j].b.next)
  {
    hide IsRun, Safe, Due, Leads, CallbackLog, Handed, TRelease, Covered;
    var w, s := ws[|steps|], ws[|steps|].subs[j].b.next;
    var at := AskedFrom(w, w.subs[j].b.holes[s], c.timing);
    RunSafe(c, ws, steps, |steps|);
    SafeBucket(c, w, j);
    BlockingHoleDue(c, w.(clock := at), j);
    var us, todo := Fill(c, ws, steps, j, s, at);
    StillWanted(c, ws, steps, |steps|, us, todo, j, s);
    var v := us[|todo|];
    StillShaped(c, v);
    DeliverLeads(c, v, j);
    var u := v.(subs := v.subs[j := TRelease(v.subs[j])]);
    Extend(c, us, todo, Deliver(j), u);
    FirstReleased(v.subs[j], w.logs[c.joined[j]][s - 1]);
    CallbackIsReleased(c, ws, steps, |steps|, j);
    CallbackIsReleased(c, us + [u], todo + [Deliver(j)], |todo| + 1, j);
    assert HandsOn(c, ws, steps, us + [u], todo + [Deliver(j)], j, s);
  }
}
