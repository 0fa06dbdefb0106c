// How a run goes on: what one more step makes of it.
module Continuations {
  import opened Bytes
  import opened Messages
  import opened RepairWire
  import opened Buckets
  import opened Publishers
  import opened Tracking
  import opened Protocol
  import opened Safety

  ghost predicate Leads(c: Setup, w: World, step: Step, v: World) {
    Shaped(c, w) && Enabled(c, w, step) && v == After(c, w, step)
  }

  lemma LeadsRun(c: Setup, ws: seq<World>, steps: seq<Step>)
    requires ValidSetup(c) && |ws| == |steps| + 1 && ws[0] == Start(c)
    requires forall k | 0 <= k < |steps| :: Leads(c, ws[k], steps[k], ws[k + 1])
    ensures IsRun(c, ws, steps)
  {
    hide After, Enabled, Shaped, Start;
    forall k | 0 <= k < |steps|
      ensures Shaped(c, ws[k]) && Enabled(c, ws[k], steps[k]) && ws[k + 1] == After(c, ws[k], steps[k])
    {
      assert Leads(c, ws[k], steps[k], ws[k + 1]);
    }
  }

  lemma ExtendRun(c: Setup, ws: seq<World>, steps: seq<Step>, step: Step, v: World)
    requires IsRun(c, ws, steps) && |ws| == |steps| + 1 && Leads(c, ws[|ws| - 1], step, v)
    ensures IsRun(c, ws + [v], steps + [step])
  {
    hide After, Enabled, Shaped, Start, ValidSetup;
    var us, todo := ws + [v], steps + [step];
    forall k | 0 <= k < |todo| ensures Leads(c, us[k], todo[k], us[k + 1]) {
      if k < |steps| {
        var taken := steps[k];
        assert us[k] == ws[k] && us[k + 1] == ws[k + 1] && todo[k] == taken;
      }
    }
    hide Leads;
    LeadsRun(c, us, todo);
  }

  /** One more step. */
  lemma Extend(c: Setup, ws: seq<World>, steps: seq<Step>, step: Step, v: World)
    requires IsRun(c, ws, steps) && Leads(c, ws[|ws| - 1], step, v)
    ensures |ws| == |steps| + 1 && IsRun(c, ws + [v], steps + [step])
    ensures Safe(c, ws[|ws| - 1]) && Safe(c, v)
  {
    assert |ws| == |steps| + 1;
    hide IsRun, Leads, Safe;
    ExtendRun(c, ws, steps, step, v);
    RunSafe(c, ws, steps, |steps|);
    RunSafe(c, ws + [v], steps + [step], |steps| + 1);
  }

  lemma StillShaped(c: Setup, w: World)
    requires Safe(c, w)
    ensures Shaped(c, w)
  {
  }

  /** What is due now, and fits one request. */
  function Due(c: Setup, w: World, j: nat): seq<u64>
    requires j < |w.subs|
  {
    Batch(Expire(w.subs[j].b, w.clock, c.timing.giveup), w.clock, c.timing)
  }

  lemma PollLeads(c: Setup, w: World, j: nat)
    requires Shaped(c, w) && j < |w.subs|
    requires var n := Nak(w.subs[j].b, w.repair, w.clock, c.timing, true, true); n.repair.open && n.asked != []
    ensures var n := Nak(w.subs[j].b, w.repair, w.clock, c.timing, true, true);
      var u := TNak(w.subs[j], w.repair, w.clock, c.timing, true, true);
      var request := Request(w.subs[j].b.id, n.asked);
      Leads(c, w, Poll(j, true, true), w.(subs := w.subs[j := u], repair := n.repair,
                                          up := w.up + EncodeRequest(request), pending := w.pending + [request]))
  {
    hide Shaped, Nak, TNak, EncodeRequest;
  }

  lemma ServeOne(c: Setup, w: World, request: Request, fs: seq<Frame>)
    requires Shaped(c, w) && w.repair.open && !w.cut && w.pending == [request] && w.down == [] && w.owed == []
    requires request.bucket < |w.rings| == c.bucketCount && |w.rings[request.bucket].slots| > 0
    requires ReadRequest(w.up, c.bucketCount) == Some((request, []))
    requires Answers(w.rings[request.bucket], request.bucket, request.sequences) == fs
    ensures Leads(c, w, Serve, w.(up := [], down := EncodeFrames(fs), owed := fs, pending := []))
  {
    hide Shaped, ReadRequest, Answers, EncodeFrames;
    assert [] + EncodeFrames(fs) == EncodeFrames(fs) && [] + fs == fs;
    assert [request][1..] == [];
  }

  lemma ReadAll(c: Setup, w: World, fs: seq<Frame>)
    requires Shaped(c, w) && w.repair.open && w.repair.held == [] && w.owed == fs && |w.down| <= REPAIR_BUF_CAP
    requires ParseFrames(w.down) == Parse(fs, [], false)
    ensures Leads(c, w, Read(|w.down|), w.(subs := ApplyAll(w.subs, fs), down := [], owed := []))
  {
    hide Shaped, ParseFrames, ApplyAll;
    assert w.repair.(held := []) == w.repair;
    assert [] + w.down[..|w.down|] == w.down && w.down[|w.down|..] == [] && fs[|fs|..] == [];
  }

  lemma ElapseLeads(c: Setup, w: World, now: nat)
    requires Shaped(c, w) && w.clock <= now
    ensures Leads(c, w, Elapse(now), w.(clock := now))
  {
    hide Shaped;
  }

  lemma ReceiveLeads(c: Setup, w: World, j: nat, d: seq<byte>)
    requires Shaped(c, w) && j < |w.subs| && d in w.sent
    ensures Leads(c, w, Receive(j, d), w.(subs := w.subs[j := TReceive(w.subs[j], d, w.clock, c.backfill)]))
  {
    hide Shaped, TReceive;
  }

  lemma DeliverLeads(c: Setup, w: World, j: nat)
    requires Shaped(c, w) && j < |w.subs|
    ensures Leads(c, w, Deliver(j), w.(subs := w.subs[j := TRelease(w.subs[j])]))
  {
    hide Shaped, TRelease;
  }

  lemma CloseLeads(c: Setup, w: World)
    requires Shaped(c, w) && w.repair.open
    ensures Leads(c, w, Close, Hangup(w))
  {
    hide Shaped, Hangup;
  }
}
