// Publisher, network, repair server and one subscriber as one step system.
// Datagrams may be lost, duplicated, reordered and delayed without bound; the
// repair connection carries bytes, is cut anywhere, and comes and goes.
module Protocol {
  import opened Bytes
  import opened Messages
  import opened RepairWire
  import opened Buckets
  import opened Publishers
  import opened Tracking

  datatype Setup = Setup(
    bucketCount: nat, ringSize: nat, joined: seq<u16>, firstExpected: nat, backfill: nat, timing: Timing)

  ghost predicate ValidSetup(c: Setup) {
    && 0 < c.bucketCount <= 0x1_0000
    && c.ringSize > 0
    && (forall j | 0 <= j < |c.joined| :: c.joined[j] < c.bucketCount)
    && (forall i, j | 0 <= i < j < |c.joined| :: c.joined[i] != c.joined[j])
    && (c.firstExpected > 0 ==> c.backfill == 0)
  }

  /** `rings` and `finished` are the publisher; `sent` maps every datagram ever
      sent to its bucket and number; `subs` and `repair` are the subscriber;
      `up` and `down` are the bytes in flight on the repair connection, and
      `cut` tells that the server has stopped writing. `logs`, `pending` and
      `owed` only record what was published and what those bytes stand for. */
  datatype World = World(
    rings: seq<Ring>,
    logs: seq<seq<OrderMessage>>,
    finished: bool,
    sent: map<seq<byte>, (nat, nat)>,
    subs: seq<Tracked>,
    repair: Repair,
    up: seq<byte>,
    down: seq<byte>,
    cut: bool,
    pending: seq<Request>,
    owed: seq<Frame>,
    clock: nat)

  datatype Step =
    | Publish(m: OrderMessage)
    | Finish
    | Send(bucket: nat, sequence: nat)
    | Elapse(now: nat)
    | Receive(joined: nat, datagram: seq<byte>)
    | Poll(joined: nat, connects: bool, writes: bool)
    | Serve
    | Cut(kept: nat)
    | Read(count: nat)
    | Close
    | Deliver(joined: nat)

  function Start(c: Setup): World {
    World(seq(c.bucketCount, i => NewRing(c.ringSize)), seq(c.bucketCount, i => []), false, map[],
          seq(|c.joined|, j requires 0 <= j < |c.joined| => NewTracked(c.joined[j], c.firstExpected)),
          Repair(false, [], 0), [], [], false, [], [], 0)
  }

  /** The datagram that carries number s of bucket i. */
  function DatagramFor(w: World, i: u16, s: u64): seq<byte>
    requires i < |w.logs| && 1 <= s <= |w.logs[i]|
  {
    DgramEncode(i, s, Encode(w.logs[i][s - 1]))
  }

  /** Shapes that never change, and numbers that fit the wire. */
  ghost predicate Shaped(c: Setup, w: World) {
    ValidSetup(c) && Shapes(c, w.rings, w.logs, w.subs)
  }

  ghost predicate Shapes(c: Setup, rings: seq<Ring>, logs: seq<seq<OrderMessage>>, subs: seq<Tracked>) {
    && |rings| == |logs| == c.bucketCount
    && |subs| == |c.joined|
    && (forall i | 0 <= i < |logs| :: |rings[i].slots| == c.ringSize && |logs[i]| < 0x1_0000_0000_0000_0000)
    && (forall j | 0 <= j < |subs| :: subs[j].b.id == c.joined[j])
  }

  /** The number of the next message fits its 64-bit field. */
  predicate HasRoom(log: seq<OrderMessage>) {
    |log| + 1 < 0x1_0000_0000_0000_0000
  }

  ghost predicate Enabled(c: Setup, w: World, step: Step)
    requires Shaped(c, w)
  {
    match step
    case Publish(m) =>
      !w.finished && m.kind != END && Terminated(m.symbol) && HasRoom(w.logs[BucketOf(m.symbol, c.bucketCount)])
    case Finish => !w.finished && forall i | 0 <= i < |w.logs| :: HasRoom(w.logs[i])
    case Send(i, s) => i < |w.logs| && 1 <= s <= |w.logs[i]|
    case Elapse(now) => w.clock <= now
    case Receive(j, d) => j < |w.subs| && d in w.sent
    case Poll(j, _, _) => j < |w.subs|
    case Serve => w.repair.open && !w.cut && ReadRequest(w.up, c.bucketCount).Some?
    case Cut(kept) => w.repair.open && kept <= |w.down|
    case Read(count) => w.repair.open && count <= |w.down| && |w.repair.held| + count <= REPAIR_BUF_CAP
    case Close => w.repair.open
    case Deliver(j) => j < |w.subs|
  }

  function FindTracked(subs: seq<Tracked>, id: u16): (j: Option<nat>)
    ensures j.Some? ==> j.value < |subs| && subs[j.value].b.id == id
    ensures j.None? ==> forall k | 0 <= k < |subs| :: subs[k].b.id != id
  {
    if subs == [] then None
    else if subs[0].b.id == id then Some(0)
    else match FindTracked(subs[1..], id) case None => None case Some(k) => Some(k + 1)
  }

  function ApplyOne(subs: seq<Tracked>, f: Frame): (r: seq<Tracked>)
    ensures |r| == |subs|
  {
    match FindTracked(subs, f.bucket)
    case None => subs
    case Some(j) => subs[j := TFrame(subs[j], f)]
  }

  function ApplyAll(subs: seq<Tracked>, fs: seq<Frame>): (r: seq<Tracked>)
    ensures |r| == |subs|
    decreases |fs|
  {
    if fs == [] then subs else ApplyAll(ApplyOne(subs, fs[0]), fs[1..])
  }

  function TReceive(t: Tracked, datagram: seq<byte>, now: nat, backfill: nat): Tracked {
    match DgramDecode(datagram)
    case None => t
    case Some(d) => if d.bucket != t.b.id then t else TAccept(t, d.sequence, d.message, now, backfill)
  }

  function Hangup(w: World): World {
    w.(repair := w.repair.(open := false, held := []), up := [], down := [], cut := false, pending := [], owed := [])
  }

  function AfterPoll(c: Setup, w: World, j: nat, connects: bool, writes: bool): World
    requires j < |w.subs|
  {
    var t := w.subs[j];
    var n := Nak(t.b, w.repair, w.clock, c.timing, connects, writes);
    var v := w.(subs := w.subs[j := TNak(t, w.repair, w.clock, c.timing, connects, writes)]);
    if !n.repair.open then Hangup(v).(repair := n.repair)
    else if n.asked == [] then v.(repair := n.repair)
    else
      var request := Request(t.b.id, n.asked);
      v.(repair := n.repair, up := w.up + EncodeRequest(request), pending := w.pending + [request])
  }

  function AfterRead(w: World, count: nat): World
    requires count <= |w.down|
  {
    var p := ParseFrames(w.repair.held + w.down[..count]);
    var v := w.(subs := ApplyAll(w.subs, p.frames));
    if p.bad then Hangup(v)
    else
      v.(repair := w.repair.(held := p.rest), down := w.down[count..],
         owed := if |p.frames| <= |w.owed| then w.owed[|p.frames|..] else [])
  }

  ghost function After(c: Setup, w: World, step: Step): World
    requires Shaped(c, w) && Enabled(c, w, step)
  {
    match step
    case Publish(m) =>
      var i := BucketOf(m.symbol, c.bucketCount);
      w.(rings := w.rings[i := Stored(w.rings[i], Encode(m))], logs := w.logs[i := w.logs[i] + [m]])
    case Finish =>
      w.(rings := seq(|w.rings|, i requires 0 <= i < |w.rings| => Stored(w.rings[i], Encode(END_MESSAGE))),
         logs := seq(|w.logs|, i requires 0 <= i < |w.logs| => w.logs[i] + [END_MESSAGE]),
         finished := true)
    case Send(i, s) => w.(sent := w.sent[DatagramFor(w, i, s) := (i, s)])
    case Elapse(now) => w.(clock := now)
    case Receive(j, d) => w.(subs := w.subs[j := TReceive(w.subs[j], d, w.clock, c.backfill)])
    case Poll(j, connects, writes) => AfterPoll(c, w, j, connects, writes)
    case Serve =>
      var (request, rest) := ReadRequest(w.up, c.bucketCount).value;
      var fs := Answers(w.rings[request.bucket], request.bucket, request.sequences);
      w.(up := rest, down := w.down + EncodeFrames(fs), owed := w.owed + fs,
         pending := if w.pending == [] then [] else w.pending[1..])
    case Cut(kept) => w.(down := w.down[..kept], cut := true)
    case Read(count) => AfterRead(w, count)
    case Close => Hangup(w)
    case Deliver(j) => w.(subs := w.subs[j := TRelease(w.subs[j])])
  }

  /** A run: the worlds passed through and the steps between them. */
  ghost predicate IsRun(c: Setup, ws: seq<World>, steps: seq<Step>) {
    && ValidSetup(c)
    && |ws| == |steps| + 1
    && ws[0] == Start(c)
    && (forall k {:trigger steps[k]} | 0 <= k < |steps| ::
          Shaped(c, ws[k]) && Enabled(c, ws[k], steps[k]) && ws[k + 1] == After(c, ws[k], steps[k]))
  }
}
