/** A looser policy never cuts a session that a tighter one lets live, and
    sends the same bytes upstream. */
module Monotone {
  import opened Bytes
  import opened Policy
  import opened Frames
  import opened Handshake
  import opened TokenBucket
  import opened Engine
  import opened StreamInvariants

  /** `b` is where the looser policy is when the tighter one is at `a`: the same
      but for fuller buckets and the idle ban timer. */
  predicate Sim(a: St, b: St, now: int) {
    && b == a.(banCheckAt := b.banCheckAt, bMsg := b.bMsg, bEvent := b.bEvent, bReq := b.bReq)
    && Looser(a.bMsg, b.bMsg) && Looser(a.bEvent, b.bEvent) && Looser(a.bReq, b.bReq)
    && a.bMsg.t <= now && a.bEvent.t <= now && a.bReq.t <= now
  }

  lemma EventSim(env: Env, ca: Cfg, cb: Cfg, a: St, b: St, now: int, buf: Bytes, ev: Value)
    requires Tighter(ca, cb) && Sim(a, b, now) && !a.killed
    requires !InspectEvent(env, ca, a, now, buf, ev).killed
    ensures Sim(InspectEvent(env, ca, a, now, buf, ev), InspectEvent(env, cb, b, now, buf, ev), now)
  {
    hide Get, EventBody, NoticeFrame, CloseFrame, Affordable, AfterTake, Looser;
    TakeLooser(a.bEvent, b.bEvent, now);
  }

  lemma TakeLooser(a: Bucket, b: Bucket, now: int)
    requires Looser(a, b) && a.t <= now
    ensures Affordable(a, now) ==> Affordable(b, now) && Looser(AfterTake(a, now), AfterTake(b, now)) && AfterTake(a, now).t == now
  {
    if Affordable(a, now) { TakeKeepsLooser(a, b, now); }
  }

  lemma QuerySim(ca: Cfg, cb: Cfg, a: St, b: St, now: int, buf: Bytes, id: Value, filters: seq<Value>, opens: bool)
    requires Tighter(ca, cb) && Sim(a, b, now) && !a.killed
    requires !InspectQuery(ca, a, now, buf, id, filters, opens).killed
    ensures Sim(InspectQuery(ca, a, now, buf, id, filters, opens), InspectQuery(cb, b, now, buf, id, filters, opens), now)
  {
    hide FiltersFault, FiltersConform, NoticeFrame, CloseFrame, Affordable, AfterTake, Looser;
    TakeLooser(a.bReq, b.bReq, now);
    FiltersFaultIffNonconforming(ca, filters);
    FiltersFaultIffNonconforming(cb, filters);
    if FiltersConform(ca, filters) { TighterFilters(ca, cb, filters); }
  }

  /** Both policies take from the bucket every message is charged to. */
  lemma ChargeSim(a: St, b: St, now: int)
    requires Sim(a, b, now) && Affordable(a.bMsg, now)
    ensures Affordable(b.bMsg, now)
    ensures Sim(a.(bMsg := AfterTake(a.bMsg, now)), b.(bMsg := AfterTake(b.bMsg, now)), now)
  {
    hide Affordable, AfterTake, Looser;
    TakeLooser(a.bMsg, b.bMsg, now);
  }

  /** AUTH is charged to the EVENT bucket. */
  lemma AuthSim(a: St, b: St, now: int, buf: Bytes)
    requires Sim(a, b, now) && Affordable(a.bEvent, now)
    ensures Affordable(b.bEvent, now)
    ensures Sim(Accept(a.(bEvent := AfterTake(a.bEvent, now)), now, buf), Accept(b.(bEvent := AfterTake(b.bEvent, now)), now, buf), now)
  {
    hide Affordable, AfterTake, Looser;
    TakeLooser(a.bEvent, b.bEvent, now);
  }

  lemma AcceptSim(a: St, b: St, now: int, buf: Bytes, id: Value)
    requires Sim(a, b, now)
    ensures Sim(Accept(a, now, buf), Accept(b, now, buf), now)
    ensures Sim(InspectClose(a, now, buf, id), InspectClose(b, now, buf, id), now)
  {
    hide Looser;
  }

  lemma InspectSim(env: Env, ca: Cfg, cb: Cfg, a: St, b: St, now: int, buf: Bytes)
    requires Tighter(ca, cb) && Sim(a, b, now) && !a.killed && !Inspect(env, ca, a, now, buf).killed
    ensures Sim(Inspect(env, ca, a, now, buf), Inspect(env, cb, b, now, buf), now)
  {
    hide InspectEvent, InspectQuery, InspectClose, Accept, Sim, NoticeFrame, CloseFrame, Affordable, AfterTake, Looser;
    ChargeSim(a, b, now);
    var a', b' := a.(bMsg := AfterTake(a.bMsg, now)), b.(bMsg := AfterTake(b.bMsg, now));
    var msg := env.parse(buf).value.items;
    var t := msg[0].s;
    if t == "EVENT" {
      EventSim(env, ca, cb, a', b', now, buf, Arg(msg, 1));
    } else if t == "REQ" || t == "COUNT" {
      QuerySim(ca, cb, a', b', now, buf, Arg(msg, 1), if |msg| >= 2 then msg[2..] else [], t == "REQ");
    } else if t == "NEG-OPEN" {
      QuerySim(ca, cb, a', b', now, buf, Arg(msg, 1), [Arg(msg, 2)], true);
    } else if t == "AUTH" {
      AuthSim(a', b', now, buf);
    } else {
      AcceptSim(a', b', now, buf, Arg(msg, 1));
    }
  }

  lemma SameDecision(acc: Bytes, inMsg: bool, msgLen: nat, ma: int, mb: int)
    requires ma <= mb && !NextFrame(acc, inMsg, msgLen, ma).Reject?
    ensures NextFrame(acc, inMsg, msgLen, mb) == NextFrame(acc, inMsg, msgLen, ma)
  {
  }

  lemma FragmentSim(env: Env, ca: Cfg, cb: Cfg, a: St, b: St, now: int, fin: bool, len: nat, payload: Bytes)
    requires Tighter(ca, cb) && Sim(a, b, now) && !a.killed
    requires !Fragment(env, ca, a, now, fin, len, payload).killed
    ensures Sim(Fragment(env, ca, a, now, fin, len, payload), Fragment(env, cb, b, now, fin, len, payload), now)
  {
    hide Inspect, Flatten, NoticeFrame, CloseFrame, Looser, Tighter;
    var parts := a.msgParts + [payload];
    if fin && |parts| <= MAX_FRAGMENTS {
      var a' := a.(msgParts := [], msgLen := 0, inMsg := false, msgReads := 0);
      var b' := b.(msgParts := [], msgLen := 0, inMsg := false, msgReads := 0);
      InspectSim(env, ca, cb, a', b', now, Flatten(parts));
    }
  }

  lemma TakeFrameSim(env: Env, ca: Cfg, cb: Cfg, a: St, b: St, now: int)
    requires Tighter(ca, cb) && Sim(a, b, now) && !a.killed && NextOf(ca, a).Take?
    requires !TakeFrame(env, ca, a, now).killed
    ensures NextOf(cb, b) == NextOf(ca, a)
    ensures Sim(TakeFrame(env, ca, a, now), TakeFrame(env, cb, b, now), now)
  {
    hide Fragment, NextFrame, Payload, NoticeFrame, CloseFrame, Looser;
    SameDecision(a.acc, a.inMsg, a.msgLen, ca.maxMsg, cb.maxMsg);
    var n := NextOf(ca, a);
    if !IsControl(n.op) && |Hold(a, n).pending| <= MAX_PENDING_FRAMES {
      FragmentSim(env, ca, cb, Hold(a, n), Hold(b, n), now, n.fin, n.len, Payload(a.acc, n));
    }
  }

  lemma {:induction false} PumpSim(env: Env, ca: Cfg, cb: Cfg, a: St, b: St, now: int)
    requires Tighter(ca, cb) && Sim(a, b, now) && !Pump(env, ca, a, now).killed
    ensures Sim(Pump(env, ca, a, now), Pump(env, cb, b, now), now)
    decreases |a.acc|
  {
    hide TakeFrame, NextFrame, NoticeFrame, CloseFrame, Looser;
    SameDecisionUnlessRejected(ca, cb, a);
    if NextOf(ca, a).Take? {
      assert !TakeFrame(env, ca, a, now).killed;
      TakeFrameSim(env, ca, cb, a, b, now);
      PumpSim(env, ca, cb, TakeFrame(env, ca, a, now), TakeFrame(env, cb, b, now), now);
    }
  }

  lemma SameDecisionUnlessRejected(ca: Cfg, cb: Cfg, a: St)
    requires ca.maxMsg <= cb.maxMsg
    ensures NextOf(ca, a).Reject? || NextOf(cb, a) == NextOf(ca, a)
  {
    if !NextOf(ca, a).Reject? { SameDecision(a.acc, a.inMsg, a.msgLen, ca.maxMsg, cb.maxMsg); }
  }

  lemma ClassifySim(env: Env, ca: Cfg, cb: Cfg, a: St, b: St, r: Read, end: nat)
    requires Tighter(ca, cb) && Sim(a, b, r.now) && end <= |a.hs| && !a.killed
    requires !Classify(env, ca, a, r, end).killed
    ensures Sim(Classify(env, ca, a, r, end), Classify(env, cb, b, r, end), r.now)
  {
    hide Pump, BareLf, IsUpgrade, NoticeFrame, CloseFrame, Looser, Tighter;
    var a' := a.(hs := [], sends := a.sends + [env.recode(a.hs[..end])]);
    var b' := b.(hs := [], sends := a.sends + [env.recode(a.hs[..end])]);
    if IsUpgrade(a.hs[..end]) {
      PumpSim(env, ca, cb, a'.(mode := WebSocket, acc := a.hs[end..]), b'.(mode := WebSocket, acc := a.hs[end..]), r.now);
    }
  }

  lemma MoreReads(ca: Cfg, cb: Cfg)
    requires Tighter(ca, cb)
    ensures ca.maxHsReads <= cb.maxHsReads && ca.maxMsgReads <= cb.maxMsgReads
  {
  }

  lemma HandshakeSim(env: Env, ca: Cfg, cb: Cfg, a: St, b: St, r: Read)
    requires Tighter(ca, cb) && Sim(a, b, r.now) && !a.killed && !HandshakeRead(env, ca, a, r).killed
    ensures Sim(HandshakeRead(env, ca, a, r), HandshakeRead(env, cb, b, r), r.now)
  {
    hide Classify, BlockEnd, NoticeFrame, CloseFrame, Looser, Tighter;
    MoreReads(ca, cb);
    var a' := a.(hsReads := a.hsReads + 1, hs := a.hs + r.data, hsScanned := |a.hs + r.data|);
    var b' := b.(hsReads := a.hsReads + 1, hs := a.hs + r.data, hsScanned := |a.hs + r.data|);
    var end := BlockEnd(a'.hs, a.hsScanned - 2);
    if end >= 0 { ClassifySim(env, ca, cb, a', b', r, end); }
  }

  lemma WebSocketSim(env: Env, ca: Cfg, cb: Cfg, a: St, b: St, r: Read)
    requires Tighter(ca, cb) && Sim(a, b, r.now) && !a.killed && !WebSocketRead(env, ca, a, r).killed
    ensures Sim(WebSocketRead(env, ca, a, r), WebSocketRead(env, cb, b, r), r.now)
  {
    hide Pump, Flatten, NoticeFrame, CloseFrame, Looser, Tighter;
    MoreReads(ca, cb);
    var a' := a.(msgReads := a.msgReads + 1, chunks := a.chunks + [r.data], pendingLen := a.pendingLen + |r.data|);
    var b' := b.(msgReads := a.msgReads + 1, chunks := a.chunks + [r.data], pendingLen := a.pendingLen + |r.data|);
    if |a'.acc| + a'.pendingLen >= a'.need {
      PumpSim(env, ca, cb, a'.(acc := Unparsed(a'), chunks := [], pendingLen := 0),
              b'.(acc := Unparsed(a'), chunks := [], pendingLen := 0), r.now);
    }
  }

  lemma OnDataSim(env: Env, ca: Cfg, cb: Cfg, a: St, b: St, r: Read)
    requires Tighter(ca, cb) && !ca.banOn && !cb.banOn && Sim(a, b, r.now) && !OnData(env, ca, a, r).killed
    ensures Sim(OnData(env, ca, a, r), OnData(env, cb, b, r), r.now)
  {
    hide HandshakeRead, WebSocketRead, NoticeFrame, CloseFrame, Looser, Tighter;
    if a.mode != Plain && r.data != [] {
      if a.mode == Handshaking { HandshakeSim(env, ca, cb, a, b, r); } else { WebSocketSim(env, ca, cb, a, b, r); }
    }
  }

  lemma {:induction false} RunSim(env: Env, ca: Cfg, cb: Cfg, start: int, rs: seq<Read>)
    requires Tighter(ca, cb) && !ca.banOn && !cb.banOn && Timely(start, rs)
    requires !Run(env, ca, Open(ca, start), rs).killed
    ensures Sim(Run(env, ca, Open(ca, start), rs), Run(env, cb, Open(cb, start), rs),
                if rs == [] then start else rs[|rs| - 1].now)
  {
    hide Deliver;
    if rs != [] {
      var before, r := rs[..|rs| - 1], rs[|rs| - 1];
      RunSim(env, ca, cb, start, before);
      OnDataSim(env, ca, cb, Run(env, ca, Open(ca, start), before), Run(env, cb, Open(cb, start), before), r);
    }
  }

  /** Over a whole session, with ban checks off: any reads and clock that the
      tighter policy does not cut are not cut by the looser one, which sends
      exactly the same upstream and lets through the same messages. */
  lemma LooserNeverStricter(env: Env, tight: Cfg, loose: Cfg, start: int, rs: seq<Read>, tights: seq<St>, looses: seq<St>, k: nat)
    requires Tighter(tight, loose) && !tight.banOn && !loose.banOn && Timely(start, rs) && k <= |rs|
    requires History(env, tight, Open(tight, start), rs, tights) && History(env, loose, Open(loose, start), rs, looses)
    requires !tights[k].killed
    ensures var a, b := tights[k], looses[k];
            !b.killed && b.sends == a.sends && b.eof == a.eof && b.accepted == a.accepted && b.mode == a.mode
  {
    hide OnData, Run, Open, Looser, Tighter;
    HistoryRuns(env, tight, Open(tight, start), rs, tights, k);
    HistoryRuns(env, loose, Open(loose, start), rs, looses, k);
    assert Timely(start, rs[..k]);
    RunSim(env, tight, loose, start, rs[..k]);
  }

  /** The shipped levels form such a chain. */
  lemma PresetsOrdered(env: Env, start: int, rs: seq<Read>, ss: seq<St>, ds: seq<St>, ls: seq<St>, k: nat)
    requires Timely(start, rs) && k <= |rs|
    requires History(env, STRICT, Open(STRICT, start), rs, ss)
    requires History(env, DEFAULT, Open(DEFAULT, start), rs, ds)
    requires History(env, LOOSE, Open(LOOSE, start), rs, ls)
    ensures !ss[k].killed ==> !ds[k].killed && ds[k].sends == ss[k].sends
    ensures !ds[k].killed ==> !ls[k].killed && ls[k].sends == ds[k].sends
  {
    hide OnData, Open;
    assert Tighter(STRICT, DEFAULT) && Tighter(DEFAULT, LOOSE);
    if !ss[k].killed { LooserNeverStricter(env, STRICT, DEFAULT, start, rs, ss, ds, k); }
    if !ds[k].killed { LooserNeverStricter(env, DEFAULT, LOOSE, start, rs, ds, ls, k); }
  }
}
