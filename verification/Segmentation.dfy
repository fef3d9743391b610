/** How the client's bytes are cut into reads does not change what happens to
    them. */
module Segmentation {
  import opened Bytes
  import opened Policy
  import opened Frames
  import opened TokenBucket
  import opened Engine
  import opened StreamInvariants
  import Delivery

  /** The fields inspection never looks at. */
  datatype Unseen = Unseen(acc: Bytes, need: nat, msgReads: int, eof: bool, hsReads: int, hsScanned: nat)

  /** The same state with other values in them. */
  function With(st: St, u: Unseen): St {
    st.(acc := u.acc, need := u.need, msgReads := u.msgReads, eof := u.eof, hsReads := u.hsReads, hsScanned := u.hsScanned)
  }

  function Own(st: St): Unseen {
    Unseen(st.acc, st.need, st.msgReads, st.eof, st.hsReads, st.hsScanned)
  }

  /** The state up to how unparsed bytes are stored, how many reads they came
      in, and whether the end of input has been passed on; after a violation
      also up to the bytes that will never be looked at again. */
  function Essence(st: St): St {
    if st.killed then With(st, Unseen([], 0, 0, false, 0, 0)).(chunks := [], pendingLen := 0)
    else With(st, Unseen(Unparsed(st), st.need, 0, false, 0, 0)).(chunks := [], pendingLen := 0)
  }

  lemma EndWith(st: St, rule: Rule, now: int, buf: Bytes, u: Unseen)
    ensures Violate(With(st, u), rule) == With(Violate(st, rule), u)
    ensures Accept(With(st, u), now, buf) == With(Accept(st, now, buf), u)
  {
    hide NoticeFrame, CloseFrame;
  }

  lemma EventWith(env: Env, cfg: Cfg, st: St, now: int, buf: Bytes, ev: Value, u: Unseen)
    ensures InspectEvent(env, cfg, With(st, u), now, buf, ev)
         == With(InspectEvent(env, cfg, st, now, buf, ev), u)
  {
    hide AfterTake, Affordable, Get, Violate, Accept, EventBody;
    var st' := st.(bEvent := AfterTake(st.bEvent, now));
    assert With(st', u) == With(st, u).(bEvent := AfterTake(st.bEvent, now));
    EndWith(st', EventRate, now, buf, u);
    EndWith(st', Malformed, now, buf, u);
    EndWith(st', KindDenied, now, buf, u);
  }

  lemma QueryWith(cfg: Cfg, st: St, now: int, buf: Bytes, id: Value, filters: seq<Value>, opens: bool, u: Unseen)
    ensures InspectQuery(cfg, With(st, u), now, buf, id, filters, opens)
         == With(InspectQuery(cfg, st, now, buf, id, filters, opens), u)
  {
    hide AfterTake, Affordable, FiltersFault, Violate, Accept;
    var st' := st.(bReq := AfterTake(st.bReq, now));
    assert With(st', u) == With(st, u).(bReq := AfterTake(st.bReq, now));
    EndWith(st', ReqRate, now, buf, u);
    EndWith(st', Malformed, now, buf, u);
    EndWith(st', TooManySubs, now, buf, u);
    if FiltersFault(cfg, filters).Some? {
      EndWith(st', FiltersFault(cfg, filters).value, now, buf, u);
    }
    if id.Str? {
      var st'' := st'.(subs := st.subs + {id.s}, subCount := st.subCount + 1);
      assert With(st'', u)
          == With(st', u).(subs := st.subs + {id.s}, subCount := st.subCount + 1);
      EndWith(st'', Malformed, now, buf, u);
    }
  }

  lemma CloseWith(st: St, now: int, buf: Bytes, id: Value, u: Unseen)
    ensures InspectClose(With(st, u), now, buf, id)
         == With(InspectClose(st, now, buf, id), u)
  {
  }

  /** AUTH is charged to the EVENT bucket. */
  lemma AuthWith(st: St, now: int, buf: Bytes, u: Unseen)
    ensures var taken := AfterTake(st.bEvent, now);
            && Violate(With(st, u).(bEvent := taken), EventRate)
               == With(Violate(st.(bEvent := taken), EventRate), u)
            && Accept(With(st, u).(bEvent := taken), now, buf)
               == With(Accept(st.(bEvent := taken), now, buf), u)
  {
    hide AfterTake, Violate, Accept;
    var st' := st.(bEvent := AfterTake(st.bEvent, now));
    assert With(st', u) == With(st, u).(bEvent := AfterTake(st.bEvent, now));
    EndWith(st', EventRate, now, buf, u);
  }

  lemma InspectWith(env: Env, cfg: Cfg, st: St, now: int, buf: Bytes, u: Unseen)
    ensures Inspect(env, cfg, With(st, u), now, buf)
         == With(Inspect(env, cfg, st, now, buf), u)
  {
    hide AfterTake, Affordable, InspectEvent, InspectQuery, InspectClose, Violate, Accept;
    var st' := st.(bMsg := AfterTake(st.bMsg, now));
    assert With(st', u) == With(st, u).(bMsg := AfterTake(st.bMsg, now));
    EndWith(st', MsgRate, now, buf, u);
    EndWith(st', Malformed, now, buf, u);
    EndWith(st', TypeNotAllowed, now, buf, u);
    if NostrMessage(env.parse(buf)) {
      var msg := env.parse(buf).value.items;
      AuthWith(st', now, buf, u);
      EventWith(env, cfg, st', now, buf, Arg(msg, 1), u);
      QueryWith(cfg, st', now, buf, Arg(msg, 1), if |msg| >= 2 then msg[2..] else [], msg[0].s == "REQ", u);
      QueryWith(cfg, st', now, buf, Arg(msg, 1), [Arg(msg, 2)], true, u);
      CloseWith(st', now, buf, Arg(msg, 1), u);
    }
  }

  lemma FragmentWith(env: Env, cfg: Cfg, st: St, now: int, fin: bool, len: nat, payload: Bytes, u: Unseen)
    ensures var r := Fragment(env, cfg, st, now, fin, len, payload);
            Fragment(env, cfg, With(st, u), now, fin, len, payload)
              == With(r, u.(msgReads := if fin && |st.msgParts| < MAX_FRAGMENTS then r.msgReads else u.msgReads))
  {
    hide Inspect, Flatten, NoticeFrame, CloseFrame;
    var parts := st.msgParts + [payload];
    var reset := st.(msgParts := [], msgLen := 0, inMsg := !fin, msgReads := 0);
    assert With(st, u).(msgParts := [], msgLen := 0, inMsg := !fin, msgReads := 0) == With(reset, u.(msgReads := 0));
    InspectWith(env, cfg, reset, now, Flatten(parts), u.(msgReads := 0));
    InspectWith(env, cfg, reset, now, Flatten(parts), Own(reset));
    assert With(reset, Own(reset)) == reset;
  }

  /** Same state, possibly other counts, `need` and end flag. */
  predicate Alike(a: St, b: St) {
    a == With(b, Own(a).(acc := b.acc))
  }

  /** Taking a frame looks at nothing past its end. */
  lemma TakeFrameWith(env: Env, cfg: Cfg, st: St, st': St, now: int, more: Bytes)
    requires NextOf(cfg, st).Take? && st' == With(st, Own(st').(acc := st.acc + more))
    ensures NextOf(cfg, st') == NextOf(cfg, st)
    ensures var r, r' := TakeFrame(env, cfg, st, now), TakeFrame(env, cfg, st', now);
            r' == With(r, Own(st').(acc := r.acc + more, need := r.need, msgReads := r'.msgReads))
  {
    hide Fragment, NextFrame, Payload, NoticeFrame, CloseFrame;
    DecisionStands(st.acc, more, st.inMsg, st.msgLen, cfg.maxMsg);
    var n := NextOf(cfg, st);
    var held, held' := Hold(st, n), Hold(st', n);
    assert held' == With(held, Own(held').(acc := held.acc + more));
    FragmentWith(env, cfg, held, now, n.fin, n.len, Payload(st.acc, n), Own(held'));
    FragmentNeed(env, cfg, held, now, n.fin, n.len, Payload(st.acc, n));
  }

  lemma FragmentNeed(env: Env, cfg: Cfg, st: St, now: int, fin: bool, len: nat, payload: Bytes)
    ensures Fragment(env, cfg, st, now, fin, len, payload).need == st.need
    ensures Fragment(env, cfg, st, now, fin, len, payload).acc == st.acc
    ensures Fragment(env, cfg, st, now, fin, len, payload).eof == st.eof
  {
    hide Inspect, Flatten, NoticeFrame, CloseFrame;
    var reset := st.(msgParts := [], msgLen := 0, inMsg := !fin, msgReads := 0);
    InspectWith(env, cfg, reset, now, Flatten(st.msgParts + [payload]), Own(reset));
    assert With(reset, Own(reset)) == reset;
  }

  /** Where the pump gets to does not depend on the read count, nor on `need`
      once it has run. */
  lemma {:induction false} PumpAlike(env: Env, cfg: Cfg, a: St, b: St, now: int)
    requires Alike(a, b) && a.chunks == []
    ensures Essence(Pump(env, cfg, a, now)) == Essence(Pump(env, cfg, b, now))
    decreases |a.acc|
  {
    hide TakeFrame, NextFrame, NoticeFrame, CloseFrame;
    if !a.killed {
      assert NextOf(cfg, a) == NextOf(cfg, b);
      match NextOf(cfg, a)
      case Wait(_) =>
      case Reject(_) =>
      case Take(_, _, _, _) =>
        var a', b' := TakeFrame(env, cfg, a, now), TakeFrame(env, cfg, b, now);
        assert b.acc + [] == b.acc && b'.acc + [] == b'.acc;
        TakeFrameWith(env, cfg, b, a, now, []);
        TakeFrameChunks(env, cfg, a, now);
        PumpAlike(env, cfg, a', b', now);
    }
  }

  lemma TakeFrameChunks(env: Env, cfg: Cfg, st: St, now: int)
    requires !st.killed && NextOf(cfg, st).Take? && st.chunks == []
    ensures TakeFrame(env, cfg, st, now).chunks == []
    ensures st.pendingLen == 0 ==> TakeFrame(env, cfg, st, now).pendingLen == 0
  {
    hide NextFrame, Payload, Flatten, Inspect, NoticeFrame, CloseFrame;
    var n := NextOf(cfg, st);
    var reset := Hold(st, n).(msgParts := [], msgLen := 0, inMsg := !n.fin, msgReads := 0);
    InspectOutcome(env, cfg, reset, now, Flatten(st.msgParts + [Payload(st.acc, n)]));

  }

  /** Pumping a prefix first and the rest later is pumping it all at once. */
  lemma {:induction false} PumpSplit(env: Env, cfg: Cfg, st: St, now: int, more: Bytes)
    requires st.chunks == []
    ensures var p := Pump(env, cfg, st, now);
            var all := Pump(env, cfg, st.(acc := st.acc + more), now);
            Essence(all) == Essence(if p.killed then p else Pump(env, cfg, p.(acc := p.acc + more), now))
    ensures Pump(env, cfg, st, now).chunks == []
    decreases |st.acc|
  {
    hide TakeFrame, NextFrame, NoticeFrame, CloseFrame;
    var st' := st.(acc := st.acc + more);
    if !st.killed {
      match NextOf(cfg, st)
      case Wait(need) =>
        PumpAlike(env, cfg, st', st.(need := need, acc := st.acc + more), now);
      case Reject(rule) =>
        DecisionStands(st.acc, more, st.inMsg, st.msgLen, cfg.maxMsg);
      case Take(_, _, _, _) =>
        DecisionStands(st.acc, more, st.inMsg, st.msgLen, cfg.maxMsg);
        var r, r' := TakeFrame(env, cfg, st, now), TakeFrame(env, cfg, st', now);
        TakeFrameSame(env, cfg, st, now, more);
        TakeFrameChunks(env, cfg, st, now);
        PumpSplit(env, cfg, r, now, more);
    }
  }

  lemma TakeFrameSame(env: Env, cfg: Cfg, st: St, now: int, more: Bytes)
    requires NextOf(cfg, st).Take?
    ensures NextOf(cfg, st.(acc := st.acc + more)) == NextOf(cfg, st)
    ensures var r := TakeFrame(env, cfg, st, now);
            TakeFrame(env, cfg, st.(acc := st.acc + more), now) == r.(acc := r.acc + more)
  {
    hide Fragment, NextFrame, Payload, NoticeFrame, CloseFrame;
    DecisionStands(st.acc, more, st.inMsg, st.msgLen, cfg.maxMsg);
    var n, st' := NextOf(cfg, st), st.(acc := st.acc + more);
    var held, held' := Hold(st, n), Hold(st', n);
    assert held' == With(held, Own(held).(acc := held.acc + more));
    FragmentWith(env, cfg, held, now, n.fin, n.len, Payload(st.acc, n), Own(held).(acc := held.acc + more));
    FragmentWith(env, cfg, held, now, n.fin, n.len, Payload(st.acc, n), Own(held));
    assert With(held, Own(held)) == held;
    FragmentNeed(env, cfg, held, now, n.fin, n.len, Payload(st.acc, n));
  }

  /** A live WebSocket session between two reads. */
  predicate Settled(cfg: Cfg, st: St) {
    !st.killed && st.mode == WebSocket && Stalled(cfg, st) && st.pendingLen == Total(st.chunks)
  }

  /** All of `data` handed to the pump at once. */
  function Eager(env: Env, cfg: Cfg, st: St, data: Bytes, now: int): St {
    Pump(env, cfg, st.(acc := Unparsed(st) + data, chunks := [], pendingLen := 0), now)
  }

  /** Holding a segment back because fewer than `need` bytes are in makes no
      difference: pumping them would have changed nothing. */
  lemma LazyIsEager(env: Env, cfg: Cfg, st: St, r: Read)
    requires Settled(cfg, st) && st.msgReads < cfg.maxMsgReads
    ensures Essence(WebSocketRead(env, cfg, st, r)) == Essence(Eager(env, cfg, st, r.data, r.now))
    ensures var st' := WebSocketRead(env, cfg, st, r);
            !st'.killed ==> st'.pendingLen == Total(st'.chunks)
  {
    hide TakeFrame, NextFrame, NoticeFrame, CloseFrame, WebSocketRead;
    var held := Delivery.WithSegment(st, r.data);
    Delivery.SegmentHeld(cfg, st, r.data);
    var whole := Delivery.Gathered(st, r.data);
    assert whole.acc == Unparsed(st) + r.data;
    PumpAlike(env, cfg, whole, st.(acc := Unparsed(st) + r.data, chunks := [], pendingLen := 0), r.now);
    PumpSplit(env, cfg, whole, r.now, []);
    PumpPendingLen(env, cfg, whole, r.now);
    if |held.acc| + held.pendingLen < held.need {
      Delivery.ReadIsHeld(env, cfg, st, r);
      assert NextOf(cfg, whole) == Wait(st.need);
    } else {
      Delivery.ReadIsPumped(env, cfg, st, r);
    }
  }

  lemma {:induction false} PumpPendingLen(env: Env, cfg: Cfg, st: St, now: int)
    requires st.chunks == [] && st.pendingLen == 0
    ensures Pump(env, cfg, st, now).pendingLen == 0
    decreases |st.acc|
  {
    hide TakeFrame, NextFrame, NoticeFrame, CloseFrame;
    if !st.killed && NextOf(cfg, st).Take? {
      TakeFrameChunks(env, cfg, st, now);
      PumpPendingLen(env, cfg, TakeFrame(env, cfg, st, now), now);
    }
  }

  /** The reads arrive at one instant, no ban check falls due, and none of
      them is one read too many for its message. */
  predicate Undisturbed(env: Env, cfg: Cfg, st: St, rs: seq<Read>, now: int) {
    && (cfg.banOn ==> now < st.banCheckAt)
    && (forall i :: 0 <= i < |rs| ==> rs[i].now == now)
    && (forall i :: 0 <= i < |rs| && rs[i].data != [] ==>
          var before := Run(env, cfg, st, rs[..i]);
          before.killed || before.msgReads < cfg.maxMsgReads)
  }

  lemma UndisturbedPrefix(env: Env, cfg: Cfg, st: St, rs: seq<Read>, now: int)
    requires Undisturbed(env, cfg, st, rs, now) && rs != []
    ensures Undisturbed(env, cfg, st, rs[..|rs| - 1], now)
  {
    var before := rs[..|rs| - 1];
    forall i | 0 <= i < |before| ensures before[..i] == rs[..i] && before[i] == rs[i] { }
  }

  lemma EagerTwice(env: Env, cfg: Cfg, st: St, a: Bytes, b: Bytes, now: int)
    ensures var p := Eager(env, cfg, st, a, now);
            Essence(Eager(env, cfg, st, a + b, now))
              == Essence(if p.killed then p else Pump(env, cfg, p.(acc := p.acc + b), now))
            && p.chunks == [] && p.pendingLen == 0
  {
    hide Pump;
    var first := st.(acc := Unparsed(st) + a, chunks := [], pendingLen := 0);
    assert Unparsed(st) + (a + b) == Unparsed(st) + a + b;
    PumpSplit(env, cfg, first, now, b);
    PumpPendingLen(env, cfg, first, now);
  }

  /** However the bytes were cut, the session ends up where the pump would
      have got with all of them at once. */
  lemma {:induction false} RunIsEager(env: Env, cfg: Cfg, st: St, rs: seq<Read>, now: int)
    requires Settled(cfg, st) && Undisturbed(env, cfg, st, rs, now)
    ensures var st' := Run(env, cfg, st, rs);
            && Essence(st') == Essence(Eager(env, cfg, st, Input(rs), now))
            && (!st'.killed ==> Settled(cfg, st') && st'.banCheckAt == st.banCheckAt)
    decreases |rs|
  {
    hide Pump, WebSocketRead, NoticeFrame, CloseFrame;
    if rs == [] {
      EagerNothing(env, cfg, st, now);
    } else {
      var before, r := rs[..|rs| - 1], rs[|rs| - 1];
      UndisturbedPrefix(env, cfg, st, rs, now);
      RunIsEager(env, cfg, st, before, now);
      EagerTwice(env, cfg, st, Input(before), r.data, now);
      var s, p := Run(env, cfg, st, before), Eager(env, cfg, st, Input(before), now);
      if !s.killed {
        if r.data == [] {
          assert p.acc + [] == p.acc;
          assert Input(rs) == Input(before);
        } else {
          LazyIsEager(env, cfg, s, r);
          CatchUp(env, cfg, s, p, r.data, now);
          StillSettled(env, cfg, s, r);
        }
      }
    }
  }

  lemma EagerNothing(env: Env, cfg: Cfg, st: St, now: int)
    requires Settled(cfg, st)
    ensures Essence(st) == Essence(Eager(env, cfg, st, [], now))
  {
    hide NextFrame, NoticeFrame, CloseFrame, TakeFrame;
    assert Unparsed(st) + [] == Unparsed(st);
  }

  lemma CatchUp(env: Env, cfg: Cfg, s: St, p: St, data: Bytes, now: int)
    requires Essence(s) == Essence(p) && !s.killed && p.chunks == [] && p.pendingLen == 0
    ensures !p.killed
    ensures Essence(Eager(env, cfg, s, data, now)) == Essence(Pump(env, cfg, p.(acc := p.acc + data), now))
  {
    hide Pump;
    assert Unparsed(p) == p.acc;
    PumpAlike(env, cfg, s.(acc := Unparsed(s) + data, chunks := [], pendingLen := 0), p.(acc := p.acc + data), now);
  }

  lemma {:induction false} PumpSettles(env: Env, cfg: Cfg, st: St, now: int)
    requires st.chunks == []
    ensures var r := Pump(env, cfg, st, now);
            && r.mode == st.mode && r.banCheckAt == st.banCheckAt
            && (!r.killed ==> Stalled(cfg, r))
    decreases |st.acc|
  {
    hide TakeFrame, NextFrame, NoticeFrame, CloseFrame;
    if !st.killed {
      match NextOf(cfg, st)
      case Wait(need) =>
        assert Unparsed(st.(need := need)) == st.acc;
      case Reject(_) =>
      case Take(_, _, _, _) =>
        TakeFrameLeaves(env, cfg, st, now);
        TakeFrameChunks(env, cfg, st, now);
        PumpSettles(env, cfg, TakeFrame(env, cfg, st, now), now);
    }
  }

  lemma StillSettled(env: Env, cfg: Cfg, st: St, r: Read)
    requires Settled(cfg, st) && st.msgReads < cfg.maxMsgReads
    ensures var st' := WebSocketRead(env, cfg, st, r);
            && st'.banCheckAt == st.banCheckAt
            && (!st'.killed ==> Settled(cfg, st'))
  {
    hide Pump, NextFrame, NoticeFrame, CloseFrame, Flatten;
    LazyIsEager(env, cfg, st, r);
    Delivery.SegmentHeld(cfg, st, r.data);
    PumpSettles(env, cfg, Delivery.Gathered(st, r.data), r.now);
    var pumped := Pump(env, cfg, Delivery.Gathered(st, r.data), r.now);
    assert Unparsed(Finish(pumped, r.last)) == Unparsed(pumped);
  }

  /** The same condition on a history. */
  ghost predicate Calm(cfg: Cfg, rs: seq<Read>, states: seq<St>, now: int)
    requires |states| == |rs| + 1
  {
    && (cfg.banOn ==> now < states[0].banCheckAt)
    && (forall i :: 0 <= i < |rs| ==> rs[i].now == now)
    && (forall i :: 0 <= i < |rs| && rs[i].data != [] ==> states[i].killed || states[i].msgReads < cfg.maxMsgReads)
  }

  lemma CalmIsUndisturbed(env: Env, cfg: Cfg, st: St, rs: seq<Read>, states: seq<St>, now: int)
    requires History(env, cfg, st, rs, states) && Calm(cfg, rs, states, now)
    ensures Undisturbed(env, cfg, st, rs, now) && states[|rs|] == Run(env, cfg, st, rs)
  {
    hide OnData, Run;
    forall i | 0 <= i <= |rs| ensures states[i] == Run(env, cfg, st, rs[..i]) {
      HistoryRuns(env, cfg, st, rs, states, i);
    }
    assert rs[..|rs|] == rs;
  }

  /** Neither side of the connection can tell `a` from `b`, and if the session
      lives it is in the same parser and policy state. */
  predicate SameSession(a: St, b: St) {
    && a.mode == b.mode && a.killed == b.killed && a.verdict == b.verdict
    && Upstream(a) == Upstream(b) && a.down == b.down && a.accepted == b.accepted
    && (!a.killed ==>
         && a.hs == b.hs && Unparsed(a) == Unparsed(b) && a.need == b.need
         && a.pending == b.pending && a.msgParts == b.msgParts
         && a.msgLen == b.msgLen && a.inMsg == b.inMsg
         && a.subs == b.subs && a.subCount == b.subCount
         && a.bMsg == b.bMsg && a.bEvent == b.bEvent && a.bReq == b.bReq)
  }

  /** And it has made the same calls to send. */
  predicate SameOutcome(a: St, b: St) {
    a.sends == b.sends && SameSession(a, b)
  }

  /** Two ways of cutting the same bytes, from any reachable WebSocket state:
      the same bytes and Close go upstream, the same verdict is given, and a
      session that survives is in the same parser and policy state. */
  lemma SegmentationDoesNotMatter(env: Env, cfg: Cfg, start: int, before: seq<Read>, past: seq<St>, now: int,
                                  rs1: seq<Read>, states1: seq<St>, rs2: seq<Read>, states2: seq<St>)
    requires History(env, cfg, Open(cfg, start), before, past)
    requires var st := past[|before|];
             && !st.killed && st.mode == WebSocket
             && History(env, cfg, st, rs1, states1) && Calm(cfg, rs1, states1, now)
             && History(env, cfg, st, rs2, states2) && Calm(cfg, rs2, states2, now)
    requires Input(rs1) == Input(rs2)
    ensures SameOutcome(states1[|rs1|], states2[|rs2|])
  {
    hide OnData, Open, Settled, Calm, Essence, SameOutcome, Input, Run, NextFrame;
    LiveIsSettled(env, cfg, start, before, past);
    SameEssence(env, cfg, past[|before|], now, rs1, states1, rs2, states2);
    EssenceTells(states1[|rs1|], states2[|rs2|]);
  }

  lemma SameEssence(env: Env, cfg: Cfg, st: St, now: int, rs1: seq<Read>, states1: seq<St>, rs2: seq<Read>, states2: seq<St>)
    requires Settled(cfg, st) && Input(rs1) == Input(rs2)
    requires History(env, cfg, st, rs1, states1) && Calm(cfg, rs1, states1, now)
    requires History(env, cfg, st, rs2, states2) && Calm(cfg, rs2, states2, now)
    ensures Essence(states1[|rs1|]) == Essence(states2[|rs2|])
  {
    hide OnData, Run, Calm, Settled, Undisturbed, Eager, Essence, Input;
    CalmIsUndisturbed(env, cfg, st, rs1, states1, now);
    CalmIsUndisturbed(env, cfg, st, rs2, states2, now);
    RunIsEager(env, cfg, st, rs1, now);
    RunIsEager(env, cfg, st, rs2, now);
  }

  lemma LiveIsSettled(env: Env, cfg: Cfg, start: int, rs: seq<Read>, states: seq<St>)
    requires History(env, cfg, Open(cfg, start), rs, states)
    requires !states[|rs|].killed && states[|rs|].mode == WebSocket
    ensures Settled(cfg, states[|rs|])
  {
    hide OnData, Open, NextFrame;
    Delivery.HistoryKeeps(env, cfg, start, rs, states, |rs|);
  }

  lemma EssenceTells(a: St, b: St)
    requires Essence(a) == Essence(b)
    ensures SameOutcome(a, b)
  {
    hide Unparsed;
  }
}
