// One turn of the subscriber's driver is a piece of a run, so what is promised
// of every run is promised of the subscriber as it is driven.
module Turns {
  import opened Bytes
  import opened Messages
  import opened RepairWire
  import opened Buckets
  import opened Subscribers
  import opened Tracking
  import opened Protocol
  import opened Safety
  import opened Guarantees
  import opened Continuations

  /** What a turn meets: the datagrams on each socket, how many bytes of the
      repair connection are read or whether it turns out closed, the clock at
      each tick, and what becomes of connects and writes. */
  datatype Turn = Turn(
    arrivals: seq<seq<Arrival>>, count: nat, ended: bool, times: seq<nat>, connects: nat -> bool, writes: nat -> bool)

  /** Datagrams were sent, bytes are on the wire and fit the buffer, and the
      clock runs on. */
  ghost predicate Possible(w: World, turn: Turn) {
    && |turn.arrivals| == |turn.times| == |w.subs|
    && AllRun(w.clock, turn.arrivals) && TimesRun(LastOf(w.clock, turn.arrivals), turn.times)
    && (forall i | 0 <= i < |turn.arrivals| :: AllSent(w, turn.arrivals[i]))
    && turn.count <= |w.down| && |w.repair.held| + turn.count <= REPAIR_BUF_CAP
  }

  /** The last clock reading of a turn. */
  function EndsAt(clock: nat, turn: Turn): nat {
    if turn.times == [] then LastOf(clock, turn.arrivals) else turn.times[|turn.times| - 1]
  }

  ghost predicate AllSent(w: World, arrivals: seq<Arrival>) {
    forall k | 0 <= k < |arrivals| :: arrivals[k].datagram in w.sent
  }

  /** What the driver's turn makes of the subscriber, and what it hands on. */
  function Turned(c: Setup, w: World, turn: Turn): (SubscriberState, seq<seq<OrderMessage>>)
    requires |turn.arrivals| == |turn.times| == |w.subs| && turn.count <= |w.down|
  {
    Pumped(View(w), turn.arrivals, w.down[..turn.count], turn.ended, turn.times, c.timing, c.backfill, turn.connects,
           turn.writes)
  }

  ghost predicate Reaches(c: Setup, ws: seq<World>, steps: seq<Step>, us: seq<World>, todo: seq<Step>) {
    IsRun(c, us, todo) && ws <= us && steps <= todo && |us| == |todo| + 1
  }

  // ---- reading the sockets ------------------------------------------------------

  lemma ReceivedBucket(t: Tracked, d: seq<byte>, now: nat, backfill: nat)
    ensures var u := TReceive(t, d, now, backfill);
      u.b == AcceptDatagram(t.b, d, now, backfill) && u.r.released == t.r.released
  {
    hide Accept, DgramDecode;
  }

  /** From w to v the buckets moved on, time passed, and nothing was passed. */
  ghost predicate OnlySubs(w: World, v: World) {
    && v == w.(subs := v.subs, clock := v.clock) && |v.subs| == |w.subs|
    && forall k | 0 <= k < |v.subs| :: v.subs[k].r.released == w.subs[k].r.released
  }

  /** One datagram is taken at its own clock reading. */
  lemma TakeOne(c: Setup, ws: seq<World>, steps: seq<Step>, j: nat, a: Arrival)
    returns (us: seq<World>, todo: seq<Step>)
    requires IsRun(c, ws, steps) && |ws| == |steps| + 1 && j < |c.joined| == |ws[|steps|].subs|
    requires ws[|steps|].clock <= a.at && a.datagram in ws[|steps|].sent
    ensures Reaches(c, ws, steps, us, todo)
    ensures var w, v := ws[|steps|], us[|todo|];
      && OnlySubs(w, v) && v.clock == a.at
      && v.subs[j].b == AcceptDatagram(w.subs[j].b, a.datagram, a.at, c.backfill)
      && forall k | 0 <= k < |v.subs| && k != j :: v.subs[k] == w.subs[k]
  {
    hide IsRun, Safe, Leads, Shaped, TReceive, AcceptDatagram;
    var w := ws[|steps|];
    ShapedThroughout(c, ws, steps, |steps|);
    var waited := w.(clock := a.at);
    ElapseLeads(c, w, a.at);
    Extend(c, ws, steps, Elapse(a.at), waited);
    StillShaped(c, waited);
    ReceiveLeads(c, waited, j, a.datagram);
    ReceivedBucket(w.subs[j], a.datagram, a.at, c.backfill);
    var v := waited.(subs := w.subs[j := TReceive(w.subs[j], a.datagram, a.at, c.backfill)]);
    Extend(c, ws + [waited], steps + [Elapse(a.at)], Receive(j, a.datagram), v);
    us, todo := ws + [waited] + [v], steps + [Elapse(a.at)] + [Receive(j, a.datagram)];
  }

  /** One socket is read dry. */
  lemma {:induction false} TakeAll(c: Setup, ws: seq<World>, steps: seq<Step>, j: nat, arrivals: seq<Arrival>)
    returns (us: seq<World>, todo: seq<Step>)
    requires IsRun(c, ws, steps) && |ws| == |steps| + 1 && j < |c.joined| == |ws[|steps|].subs|
    requires Runs(ws[|steps|].clock, arrivals) && AllSent(ws[|steps|], arrivals)
    ensures Reaches(c, ws, steps, us, todo)
    ensures var w, v := ws[|steps|], us[|todo|];
      && OnlySubs(w, v) && v.clock == LastAt(w.clock, arrivals)
      && v.subs[j].b == AcceptAll(w.subs[j].b, arrivals, c.backfill)
      && forall k | 0 <= k < |v.subs| && k != j :: v.subs[k] == w.subs[k]
    decreases |arrivals|
  {
    hide IsRun, AcceptDatagram;
    us, todo := ws, steps;
    if arrivals != [] {
      var vs, path := TakeOne(c, ws, steps, j, arrivals[0]);
      us, todo := TakeAll(c, vs, path, j, arrivals[1..]);
    }
  }

  /** The sockets from the i-th on are read dry. */
  lemma {:induction false} TakeSockets(c: Setup, ws: seq<World>, steps: seq<Step>, i: nat, arrivals: seq<seq<Arrival>>)
    returns (us: seq<World>, todo: seq<Step>)
    requires IsRun(c, ws, steps) && |ws| == |steps| + 1 && i <= |arrivals| == |c.joined| == |ws[|steps|].subs|
    requires AllRun(ws[|steps|].clock, arrivals[i..])
    requires forall k | 0 <= k < |arrivals| :: AllSent(ws[|steps|], arrivals[k])
    ensures Reaches(c, ws, steps, us, todo)
    ensures var w, v := ws[|steps|], us[|todo|];
      && OnlySubs(w, v) && v.clock == LastOf(w.clock, arrivals[i..])
      && (forall k | i <= k < |v.subs| :: v.subs[k].b == AcceptAll(w.subs[k].b, arrivals[k], c.backfill))
      && forall k | 0 <= k < i :: v.subs[k] == w.subs[k]
    decreases |arrivals| - i
  {
    hide IsRun, AcceptAll, Runs, LastAt;
    us, todo := ws, steps;
    if i < |arrivals| {
      var vs, path := TakeAll(c, ws, steps, i, arrivals[i]);
      assert arrivals[i..][1..] == arrivals[i + 1..];
      us, todo := TakeSockets(c, vs, path, i + 1, arrivals);
    }
  }

  // ---- reading the repair connection --------------------------------------------

  ghost predicate PassedSame(w: World, v: World) {
    && v.clock == w.clock && |v.subs| == |w.subs|
    && forall k | 0 <= k < |v.subs| :: v.subs[k].r.released == w.subs[k].r.released
  }

  function Wired(w: World, turn: Turn): SubscriberState
    requires turn.count <= |w.down|
  {
    if !w.repair.open then View(w)
    else if turn.ended then Disconnected(View(w)) else Drained(View(w), w.down[..turn.count])
  }

  lemma ReadOrClose(c: Setup, ws: seq<World>, steps: seq<Step>, turn: Turn)
    returns (us: seq<World>, todo: seq<Step>)
    requires IsRun(c, ws, steps) && |ws| == |steps| + 1
    requires turn.count <= |ws[|steps|].down| && |ws[|steps|].repair.held| + turn.count <= REPAIR_BUF_CAP
    ensures Reaches(c, ws, steps, us, todo)
    ensures View(us[|todo|]) == Wired(ws[|steps|], turn) && PassedSame(ws[|steps|], us[|todo|])
  {
    hide IsRun, Safe, Leads, Shaped, Drained, After;
    us, todo := ws, steps;
    var w := ws[|steps|];
    ShapedThroughout(c, ws, steps, |steps|);
    if w.repair.open {
      var step := if turn.ended then Close else Read(turn.count);
      StepTakes(c, w, step);
      Extend(c, ws, steps, step, After(c, w, step));
      us, todo := ws + [After(c, w, step)], steps + [step];
    }
  }

  lemma StepTakes(c: Setup, w: World, step: Step)
    requires Shaped(c, w) && w.repair.open
    requires step.Close? || (step.Read? && step.count <= |w.down| && |w.repair.held| + step.count <= REPAIR_BUF_CAP)
    ensures Enabled(c, w, step) && Leads(c, w, step, After(c, w, step)) && PassedSame(w, After(c, w, step))
    ensures View(After(c, w, step))
         == if step.Close? then Disconnected(View(w)) else Drained(View(w), w.down[..step.count])
  {
    hide Shaped, Drained, ParseFrames, ApplyAll, View, Disconnected;
    SubscriberSteps(c, w, step);
    forall k | 0 <= k < |w.subs|
      ensures |After(c, w, step).subs| == |w.subs| && After(c, w, step).subs[k].r.released == w.subs[k].r.released
    {
      StepReleases(c, w, step, k);
      assert w.subs[k].r.released + [] == w.subs[k].r.released;
    }
    SameLength(c, w, step);
  }

  // ---- ticks and deliveries -----------------------------------------------------

  /** From w to v bucket j handed on `out`, and the other buckets nothing. */
  ghost predicate OnlyHanded(w: World, v: World, j: nat, out: seq<OrderMessage>) {
    && |v.subs| == |w.subs| > j
    && forall k | 0 <= k < |v.subs| ::
         Handed(v.subs[k].r.released) == Handed(w.subs[k].r.released) + if k == j then out else []
  }

  /** A tick and a delivery of one bucket. */
  lemma TickOne(c: Setup, ws: seq<World>, steps: seq<Step>, j: nat, now: nat, connects: bool, writes: bool)
    returns (us: seq<World>, todo: seq<Step>)
    requires IsRun(c, ws, steps) && |ws| == |steps| + 1 && j < |c.joined| == |ws[|steps|].subs|
    requires ws[|steps|].clock <= now
    ensures Reaches(c, ws, steps, us, todo)
    ensures var w, v := ws[|steps|], us[|todo|];
      var (state, out) := Ticked(View(w), j, now, c.timing, connects, writes);
      View(v) == state && v.clock == now && OnlyHanded(w, v, j, out)
  {
    hide IsRun, Safe, Leads, Shaped, After, Enabled, Nak, ReleaseAll, Handed, OnlyHanded;
    var w := ws[|steps|];
    ShapedThroughout(c, ws, steps, |steps|);
    var waited := w.(clock := now);
    ElapseLeads(c, w, now);
    Extend(c, ws, steps, Elapse(now), waited);
    StillShaped(c, waited);
    PollTakes(c, waited, j, connects, writes);
    var polled := After(c, waited, Poll(j, connects, writes));
    Extend(c, ws + [waited], steps + [Elapse(now)], Poll(j, connects, writes), polled);
    StillShaped(c, polled);
    DeliverTakes(c, polled, j);
    var v := After(c, polled, Deliver(j));
    Extend(c, ws + [waited] + [polled], steps + [Elapse(now)] + [Poll(j, connects, writes)], Deliver(j), v);
    us, todo := ws + [waited] + [polled] + [v],
        steps + [Elapse(now)] + [Poll(j, connects, writes)] + [Deliver(j)];
    TickComposes(w, waited, polled, v, j, c.timing, connects, writes);
  }

  lemma PollTakes(c: Setup, w: World, j: nat, connects: bool, writes: bool)
    requires Shaped(c, w) && j < |w.subs|
    ensures Enabled(c, w, Poll(j, connects, writes))
    ensures var v := After(c, w, Poll(j, connects, writes));
      var n := Nak(w.subs[j].b, w.repair, w.clock, c.timing, connects, writes);
      && Leads(c, w, Poll(j, connects, writes), v) && PassedSame(w, v)
      && View(v) == SubscriberState(View(w).buckets[j := n.bucket], n.repair)
  {
    var step := Poll(j, connects, writes);
    hide Shaped, Nak, TNak, EncodeRequest;
    SubscriberSteps(c, w, step);
    forall k | 0 <= k < |w.subs|
      ensures |After(c, w, step).subs| == |w.subs| && After(c, w, step).subs[k].r.released == w.subs[k].r.released
    {
      StepReleases(c, w, step, k);
      assert w.subs[k].r.released + [] == w.subs[k].r.released;
    }
    SameLength(c, w, step);
  }

  lemma DeliverTakes(c: Setup, w: World, j: nat)
    requires Shaped(c, w) && j < |w.subs|
    ensures Enabled(c, w, Deliver(j))
    ensures var v := After(c, w, Deliver(j));
      && Leads(c, w, Deliver(j), v) && v.clock == w.clock
      && View(v) == View(w).(buckets := View(w).buckets[j := ReleaseAll(w.subs[j].b).0])
      && OnlyHanded(w, v, j, Handed(ReleaseAll(w.subs[j].b).1))
  {
    hide Shaped, TRelease, ReleaseAll, Handed;
    var v := After(c, w, Deliver(j));
    SubscriberSteps(c, w, Deliver(j));
    ReleasesHanded(w.subs[j]);
    assert v == w.(subs := w.subs[j := TRelease(w.subs[j])]);
    forall k | 0 <= k < |v.subs|
      ensures Handed(v.subs[k].r.released)
           == Handed(w.subs[k].r.released) + if k == j then Handed(ReleaseAll(w.subs[j].b).1) else []
    {
      assert Handed(w.subs[k].r.released) + [] == Handed(w.subs[k].r.released);
    }
  }

  lemma ReleasesHanded(t: Tracked)
    ensures Handed(TRelease(t).r.released) == Handed(t.r.released) + Handed(ReleaseAll(t.b).1)
  {
    hide ReleaseAll, Handed;
    HandedAppend(t.r.released, ReleaseAll(t.b).1);
  }

  lemma TickComposes(w: World, waited: World, polled: World, v: World, j: nat, timing: Timing, connects: bool,
                     writes: bool)
    requires waited == w.(clock := waited.clock) && j < |w.subs| && PassedSame(waited, polled)
    requires var n := Nak(w.subs[j].b, w.repair, waited.clock, timing, connects, writes);
      View(polled) == SubscriberState(View(w).buckets[j := n.bucket], n.repair)
    requires j < |polled.subs| && v.clock == polled.clock
    requires View(v) == View(polled).(buckets := View(polled).buckets[j := ReleaseAll(polled.subs[j].b).0])
    requires OnlyHanded(polled, v, j, Handed(ReleaseAll(polled.subs[j].b).1))
    ensures var (state, out) := Ticked(View(w), j, waited.clock, timing, connects, writes);
      View(v) == state && v.clock == waited.clock && OnlyHanded(w, v, j, out)
  {
    hide Nak, ReleaseAll, Handed;
    var n := Nak(w.subs[j].b, w.repair, waited.clock, timing, connects, writes);
    assert polled.subs[j].b == View(polled).buckets[j] == n.bucket;
    assert View(w).buckets[j] == w.subs[j].b;
  }

  /** The first n buckets, one after another. */
  lemma {:induction false} TickMany(c: Setup, ws: seq<World>, steps: seq<Step>, n: nat, turn: Turn)
    returns (us: seq<World>, todo: seq<Step>)
    requires IsRun(c, ws, steps) && |ws| == |steps| + 1 && n <= |turn.times| == |c.joined| == |ws[|steps|].subs|
    requires TimesRun(ws[|steps|].clock, turn.times)
    ensures Reaches(c, ws, steps, us, todo)
    ensures var w, v := ws[|steps|], us[|todo|];
      var (state, handed) := TickedAll(View(w), n, turn.times, c.timing, turn.connects, turn.writes);
      && View(v) == state && v.clock == (if n == 0 then w.clock else turn.times[n - 1]) && |v.subs| == |w.subs|
      && forall k | 0 <= k < |v.subs| ::
           Handed(v.subs[k].r.released) == Handed(w.subs[k].r.released) + if k < n then handed[k] else []
    decreases n
  {
    hide IsRun, Handed, Ticked;
    us, todo := ws, steps;
    if n == 0 {
      assert forall k | 0 <= k < |ws[|steps|].subs| ::
          Handed(ws[|steps|].subs[k].r.released) + [] == Handed(ws[|steps|].subs[k].r.released);
    } else {
      var vs, path := TickMany(c, ws, steps, n - 1, turn);
      us, todo := TickOne(c, vs, path, n - 1, turn.times[n - 1], turn.connects(n - 1), turn.writes(n - 1));
    }
  }

  // ---- the whole turn -----------------------------------------------------------

  /** The run goes on through the turn: its subscriber ends where the driver's
      does, and each callback is handed what the driver hands on. */
  ghost predicate TakesTurn(c: Setup, ws: seq<World>, steps: seq<Step>, turn: Turn, us: seq<World>, todo: seq<Step>)
    requires IsRun(c, ws, steps) && |ws| == |steps| + 1 && Possible(ws[|steps|], turn)
  {
    var (state, handed) := Turned(c, ws[|steps|], turn);
    && Reaches(c, ws, steps, us, todo) && View(us[|todo|]) == state && |handed| == |c.joined|
    && us[|todo|].clock == EndsAt(ws[|steps|].clock, turn)
    && forall j | 0 <= j < |c.joined| ::
         CallbackLog(c, us, todo, |todo|, j) == CallbackLog(c, ws, steps, |steps|, j) + handed[j]
  }

  /** The driver's turn is reading sockets, reading the connection, ticking. */
  lemma TurnComposes(c: Setup, w: World, taken: World, turn: Turn)
    requires Possible(w, turn) && OnlySubs(w, taken)
    requires forall k | 0 <= k < |taken.subs| ::
      taken.subs[k].b == AcceptAll(w.subs[k].b, turn.arrivals[k], c.backfill)
    ensures TickedAll(Wired(taken, turn), |turn.times|, turn.times, c.timing, turn.connects, turn.writes)
         == Turned(c, w, turn)
  {
    hide AcceptAll, TickedAll, ParseFrames, ApplyFrames, AllRun, TimesRun, AllSent;
    assert View(taken) == View(w).(buckets := ReceivedAll(View(w).buckets, turn.arrivals, c.backfill));
  }

  /** In every run, at every moment, and whatever a turn of the driver meets. */
  lemma TurnIsRun(c: Setup, ws: seq<World>, steps: seq<Step>, turn: Turn)
    requires IsRun(c, ws, steps) && |ws| == |steps| + 1 && Possible(ws[|steps|], turn)
    ensures exists us, todo :: TakesTurn(c, ws, steps, turn, us, todo)
  {
    hide IsRun, Handed, AllSent, AcceptAll, TickedAll, Wired, CallbackLog, Shaped, Turned, AllRun, View;
    var w := ws[|steps|];
    ShapedThroughout(c, ws, steps, |steps|);
    assert turn.arrivals[0..] == turn.arrivals;
    var us, todo := TakeSockets(c, ws, steps, 0, turn.arrivals);
    var taken := us[|todo|];
    TurnComposes(c, w, taken, turn);
    var vs, path := ReadOrClose(c, us, todo, turn);
    var xs, all := TickMany(c, vs, path, |turn.times|, turn);
    forall j | 0 <= j < |c.joined|
      ensures CallbackLog(c, xs, all, |all|, j)
           == CallbackLog(c, ws, steps, |steps|, j) + Turned(c, w, turn).1[j]
    {
      CallbackIsReleased(c, ws, steps, |steps|, j);
      CallbackIsReleased(c, xs, all, |all|, j);
    }
    assert TakesTurn(c, ws, steps, turn, xs, all);
  }

  // ---- the class, turn after turn -------------------------------------------------

  /** The object is where the subscriber of the world is. */
  ghost predicate Follows(s: Subscriber, c: Setup, w: World)
    reads s, s.buffer
  {
    && s.Valid() && s.timing == c.timing && s.backfill == c.backfill
    && s.State() == View(w) && s.clock <= w.clock
  }

  lemma {:induction false} LaterRuns(early: nat, from: nat, arrivals: seq<Arrival>)
    requires early <= from && Runs(from, arrivals)
    ensures Runs(early, arrivals) && LastAt(early, arrivals) <= LastAt(from, arrivals)
    decreases |arrivals|
  {
  }

  /** A clock that is behind allows what the later clock allows. */
  lemma {:induction false} LaterAllRun(early: nat, from: nat, arrivals: seq<seq<Arrival>>)
    requires early <= from && AllRun(from, arrivals)
    ensures AllRun(early, arrivals) && LastOf(early, arrivals) <= LastOf(from, arrivals)
    decreases |arrivals|
  {
    if arrivals != [] {
      LaterRuns(early, from, arrivals[0]);
      LaterAllRun(LastAt(early, arrivals[0]), LastAt(from, arrivals[0]), arrivals[1..]);
    }
  }

  /** A new object stands where every run starts. */
  method NewSubscriber(c: Setup) returns (s: Subscriber)
    requires ValidSetup(c)
    ensures fresh(s) && fresh(s.buffer) && Follows(s, c, Start(c))
  {
    s := new Subscriber(c.joined, c.firstExpected, c.backfill, c.timing);
    assert View(Start(c)).buckets == s.buckets;
  }

  /** One turn of the object: the run goes on to where the object is then, and
      every callback of that run was handed what the object handed on. */
  method TakeTurn(s: Subscriber, ghost c: Setup, ghost ws: seq<World>, ghost steps: seq<Step>,
                  arrivals: seq<seq<Arrival>>, queued: seq<byte>, cuts: seq<nat>, closed: bool, times: seq<nat>,
                  connects: nat -> bool, writes: nat -> bool)
    returns (handed: seq<seq<OrderMessage>>, ghost us: seq<World>, ghost todo: seq<Step>)
    requires IsRun(c, ws, steps) && |ws| == |steps| + 1 && Follows(s, c, ws[|steps|])
    requires Possible(ws[|steps|], Turn(arrivals, 0, false, times, connects, writes))
    requires queued == ws[|steps|].down
    modifies s, s.buffer
    ensures Reaches(c, ws, steps, us, todo) && Follows(s, c, us[|todo|])
    ensures |handed| == |c.joined| && forall j | 0 <= j < |c.joined| ::
        CallbackLog(c, us, todo, |todo|, j) == CallbackLog(c, ws, steps, |steps|, j) + handed[j]
  {
    hide IsRun, CallbackLog, AllSent, Pumped, AllRun, LastOf;
    ghost var w := ws[|steps|];
    LaterAllRun(s.clock, w.clock, arrivals);
    var taken, ended;
    ghost var clock, held := s.clock, s.held;
    assert |s.buckets| == |w.subs| && |View(w).repair.held| == held;
    handed, taken, ended := s.Pump(arrivals, queued, cuts, closed, times, connects, writes);
    ghost var turn := Turn(arrivals, taken, ended, times, connects, writes);
    TurnIsRun(c, ws, steps, turn);
    us, todo :| TakesTurn(c, ws, steps, turn, us, todo);
  }
}
