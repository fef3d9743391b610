/** How the client's bytes are cut into reads does not change what happens to a
    whole session, handshake included. */
module WholeSession {
  import opened Wrappers
  import opened Bytes
  import opened Policy
  import opened Frames
  import opened Handshake
  import opened TokenBucket
  import opened Engine
  import opened StreamInvariants
  import opened Segmentation
  import opened Delivery

  /** A WebSocket session right after its header block has been sent on. */
  function Entered(env: Env, cfg: Cfg, start: int, head: Bytes): St {
    Open(cfg, start).(mode := WebSocket, sends := [env.recode(head)])
  }

  /** A session that has read nothing but the beginning of a header block. */
  predicate Waiting(cfg: Cfg, start: int, st: St, input: Bytes) {
    st == Open(cfg, start).(hs := input, hsScanned := |input|, hsReads := st.hsReads, eof := st.eof)
  }

  /** A session refused for a bare LF in its header block. */
  predicate Refused(st: St) {
    && st.killed && st.mode == Handshaking && st.verdict == Some(Protocol) && st.accepted == []
    && st.sends == [CloseFrame(Protocol, true)]
    && st.down == [NoticeFrame(Protocol), CloseFrame(Protocol, false)]
  }

  /** A session passed through after its header block. */
  predicate PassedOn(env: Env, cfg: Cfg, start: int, st: St, input: Bytes)
    requires HeadersIn(input)
  {
    && st == Open(cfg, start).(mode := Plain, sends := st.sends, eof := st.eof, hsReads := st.hsReads, hsScanned := st.hsScanned)
    && Upstream(st) == env.recode(Head(input)) + Body(input)
  }

  /** An inspected session is where the pump gets with the whole body at once. */
  predicate Inspected(env: Env, cfg: Cfg, start: int, now: int, st: St, input: Bytes)
    requires HeadersIn(input)
  {
    && Essence(st) == Essence(Eager(env, cfg, Entered(env, cfg, start, Head(input)), Body(input), now))
    && (!st.killed ==> Settled(cfg, st))
  }

  /** What the bytes alone make of a session. */
  predicate Explained(env: Env, cfg: Cfg, start: int, now: int, st: St, input: Bytes) {
    if BlockEnd(input, 0) < 0 then Waiting(cfg, start, st, input)
    else if !HeadersIn(input) then Refused(st)
    else if IsUpgrade(Head(input)) then Inspected(env, cfg, start, now, st, input)
    else PassedOn(env, cfg, start, st, input)
  }

  lemma FinishExplained(env: Env, cfg: Cfg, start: int, now: int, st: St, last: bool, input: Bytes)
    requires Explained(env, cfg, start, now, st, input)
    ensures Explained(env, cfg, start, now, Finish(st, last), input)
  {
    hide Eager, BlockEnd, BareLf, IsUpgrade, NextFrame, NoticeFrame, CloseFrame;
    assert Unparsed(Finish(st, last)) == Unparsed(st);
    assert Upstream(Finish(st, last)) == Upstream(st);
  }

  lemma UpgradeExplained(env: Env, cfg: Cfg, start: int, st: St, now: int, input: Bytes)
    requires HeadersIn(input)
    requires st == Entered(env, cfg, start, Head(input)).(
                     acc := Body(input), hsReads := st.hsReads, hsScanned := st.hsScanned, eof := st.eof)
    ensures Inspected(env, cfg, start, now, Pump(env, cfg, st, now), input)
  {
    hide Pump, NextFrame, BlockEnd, BareLf;
    var whole := Entered(env, cfg, start, Head(input)).(acc := Body(input));
    assert Unparsed(Entered(env, cfg, start, Head(input))) + Body(input) == Body(input);
    PumpAlike(env, cfg, st, whole, now);
    PumpSettles(env, cfg, st, now);
    PumpSplit(env, cfg, st, now, []);
    PumpPendingLen(env, cfg, st, now);
  }

  lemma ClassifyExplained(env: Env, cfg: Cfg, start: int, st: St, r: Read, input: Bytes)
    requires Waiting(cfg, start, st, input) && BlockEnd(input, 0) >= 0
    ensures Explained(env, cfg, start, r.now, Classify(env, cfg, st, r, BlockEnd(input, 0)), input)
  {
    hide Pump, BlockEnd, BareLf, IsUpgrade, Inspected, NoticeFrame, CloseFrame;
    if HeadersIn(input) {
      var sent := st.(hs := [], sends := [env.recode(Head(input))]);
      assert st.sends + [env.recode(Head(input))] == [env.recode(Head(input))];
      if IsUpgrade(Head(input)) {
        var open := sent.(mode := WebSocket, acc := Body(input));
        UpgradeExplained(env, cfg, start, open, r.now, input);
        FinishExplained(env, cfg, start, r.now, Pump(env, cfg, open, r.now), r.last, input);
      } else {
        var rest := Body(input);
        var open := sent.(mode := Plain, sends := if rest == [] then sent.sends else sent.sends + [rest]);
        FlattenOne([], env.recode(Head(input)));
        FlattenOne(sent.sends, rest);
        assert [] + [env.recode(Head(input))] == [env.recode(Head(input))];
        FinishExplained(env, cfg, start, r.now, open, r.last, input);
      }
    }
  }

  lemma WaitingStep(env: Env, cfg: Cfg, start: int, st: St, r: Read, input: Bytes)
    requires Waiting(cfg, start, st, input) && BlockEnd(input, 0) < 0 && r.data != []
    requires st.hsReads < cfg.maxHsReads && |input| + |r.data| <= MAX_HANDSHAKE
    ensures Explained(env, cfg, start, r.now, HandshakeRead(env, cfg, st, r), input + r.data)
  {
    hide Classify, BlockEnd, BareLf, IsUpgrade, Inspected, PassedOn, Refused, NoticeFrame, CloseFrame;
    ResumedScanExact(input, r.data);
    var st3 := st.(hsReads := st.hsReads + 1, hs := input + r.data, hsScanned := |input + r.data|);
    if BlockEnd(input + r.data, 0) >= 0 { ClassifyExplained(env, cfg, start, st3, r, input + r.data); }
  }

  lemma RefusedStep(input: Bytes, data: Bytes)
    requires BlockEnd(input, 0) >= 0 && !HeadersIn(input)
    ensures BlockEnd(input + data, 0) >= 0 && !HeadersIn(input + data)
  {
    BlockEndStands(input, data);
    var i: nat :| i < BlockEnd(input, 0) && BareLfAt(input, i);
    assert BareLfAt(input + data, i);
  }

  lemma PassedOnStep(env: Env, cfg: Cfg, start: int, st: St, r: Read, input: Bytes)
    requires HeadersIn(input) && PassedOn(env, cfg, start, st, input)
    ensures HeadersIn(input + r.data) && PassedOn(env, cfg, start, Deliver(env, cfg, st, r), input + r.data)
  {
    hide BlockEnd, BareLf, HandshakeRead, WebSocketRead;
    HeadersStay(input, r.data);
    FlattenOne(st.sends, r.data);
  }

  lemma CutStays(env: Env, cfg: Cfg, start: int, now: int, st: St, input: Bytes, data: Bytes)
    requires HeadersIn(input) && Inspected(env, cfg, start, now, st, input) && st.killed
    ensures HeadersIn(input + data) && Inspected(env, cfg, start, now, st, input + data)
  {
    hide BlockEnd, BareLf, Eager;
    HeadersStay(input, data);
    EagerTwice(env, cfg, Entered(env, cfg, start, Head(input)), Body(input), data, now);
  }

  lemma InspectedStep(env: Env, cfg: Cfg, start: int, st: St, r: Read, input: Bytes)
    requires HeadersIn(input) && Inspected(env, cfg, start, r.now, st, input) && !st.killed
    requires r.data != [] && st.msgReads < cfg.maxMsgReads
    ensures HeadersIn(input + r.data)
    ensures Inspected(env, cfg, start, r.now, WebSocketRead(env, cfg, st, r), input + r.data)
  {
    hide BlockEnd, BareLf, Eager, WebSocketRead, Pump, Essence, Settled;
    HeadersStay(input, r.data);
    var entered := Entered(env, cfg, start, Head(input));
    EagerTwice(env, cfg, entered, Body(input), r.data, r.now);
    LazyIsEager(env, cfg, st, r);
    CatchUp(env, cfg, st, Eager(env, cfg, entered, Body(input), r.now), r.data, r.now);
    StillSettled(env, cfg, st, r);
  }

  /** No cap is hit by this read. */
  predicate Allowed(cfg: Cfg, st: St, r: Read) {
    && (st.mode == Handshaking ==> st.hsReads < cfg.maxHsReads && |st.hs| + |r.data| <= MAX_HANDSHAKE)
    && (st.mode == WebSocket ==> st.msgReads < cfg.maxMsgReads)
  }

  /** The ban timer stays where it was set while no check falls due. */
  lemma TimerStays(env: Env, cfg: Cfg, start: int, now: int, st: St, input: Bytes)
    requires Explained(env, cfg, start, now, st, input) && !st.killed
    ensures st.banCheckAt == Open(cfg, start).banCheckAt
  {
    hide Pump, BlockEnd, BareLf, IsUpgrade, Settled, Upstream, NoticeFrame, CloseFrame, Flatten;
    if HeadersIn(input) && IsUpgrade(Head(input)) {
      var whole := Entered(env, cfg, start, Head(input)).(acc := Unparsed(Entered(env, cfg, start, Head(input))) + Body(input));
      PumpSettles(env, cfg, whole, now);
    }
  }

  lemma StepExplained(env: Env, cfg: Cfg, start: int, st: St, r: Read, input: Bytes)
    requires Explained(env, cfg, start, r.now, st, input)
    requires cfg.banOn ==> r.now < start + cfg.banRecheck * 1000
    requires !st.killed && r.data != [] ==> Allowed(cfg, st, r)
    ensures Explained(env, cfg, start, r.now, OnData(env, cfg, st, r), input + r.data)
  {
    hide HandshakeRead, WebSocketRead, BlockEnd, BareLf, IsUpgrade, Eager, Essence, Stalled, Upstream, NoticeFrame, CloseFrame;
    if !st.killed {
      TimerStays(env, cfg, start, r.now, st, input);
      assert OnData(env, cfg, st, r) == Deliver(env, cfg, st, r);
    }
    if BlockEnd(input, 0) < 0 {
      if r.data == [] {
        assert input + r.data == input;
        FinishExplained(env, cfg, start, r.now, st, r.last, input);
      } else {
        WaitingStep(env, cfg, start, st, r, input);
      }
    } else if !HeadersIn(input) {
      RefusedStep(input, r.data);
    } else {
      HeadersStay(input, r.data);
      if !IsUpgrade(Head(input)) {
        PassedOnStep(env, cfg, start, st, r, input);
      } else if st.killed {
        CutStays(env, cfg, start, r.now, st, input, r.data);
      } else if r.data == [] {
        assert input + r.data == input;
        FinishExplained(env, cfg, start, r.now, st, r.last, input);
      } else {
        InspectedStep(env, cfg, start, st, r, input);
      }
    }
  }

  /** The reads arrive at one instant, no ban check falls due, and no read hits
      a cap. */
  ghost predicate Unhindered(cfg: Cfg, start: int, rs: seq<Read>, states: seq<St>, now: int)
    requires |states| == |rs| + 1
  {
    && (cfg.banOn ==> now < start + cfg.banRecheck * 1000)
    && (forall i :: 0 <= i < |rs| ==> rs[i].now == now)
    && (forall i :: 0 <= i < |rs| && rs[i].data != [] ==> states[i].killed || Allowed(cfg, states[i], rs[i]))
  }

  lemma {:induction false} HistoryExplained(env: Env, cfg: Cfg, start: int, now: int, rs: seq<Read>, states: seq<St>, k: nat)
    requires History(env, cfg, Open(cfg, start), rs, states) && Unhindered(cfg, start, rs, states, now) && k <= |rs|
    ensures Explained(env, cfg, start, now, states[k], Input(rs[..k]))
  {
    hide OnData, Explained, Allowed;
    if k == 0 {
      OpenExplained(env, cfg, start, now);
    } else {
      HistoryExplained(env, cfg, start, now, rs, states, k - 1);
      assert rs[..k][..k - 1] == rs[..k - 1];
      assert states[k - 1 + 1] == OnData(env, cfg, states[k - 1], rs[k - 1]);
      StepExplained(env, cfg, start, states[k - 1], rs[k - 1], Input(rs[..k - 1]));
    }
  }

  lemma OpenExplained(env: Env, cfg: Cfg, start: int, now: int)
    ensures Explained(env, cfg, start, now, Open(cfg, start), [])
  {
  }

  lemma BytesDecide(env: Env, cfg: Cfg, start: int, now: int, a: St, b: St, input: Bytes)
    requires Explained(env, cfg, start, now, a, input) && Explained(env, cfg, start, now, b, input)
    ensures SameSession(a, b)
  {
    hide Eager, Essence, Settled, BlockEnd, BareLf, IsUpgrade, Flatten, NoticeFrame, CloseFrame;
    if HeadersIn(input) && IsUpgrade(Head(input)) { EssenceTells(a, b); }
  }

  /** Two ways of cutting the same bytes, from the first byte of a session and
      with no cap hit: the same bytes go upstream and down, the same verdict is
      given, and a session that survives is in the same state. */
  lemma CutsDoNotMatter(env: Env, cfg: Cfg, start: int, now: int,
                        rs1: seq<Read>, states1: seq<St>, rs2: seq<Read>, states2: seq<St>)
    requires History(env, cfg, Open(cfg, start), rs1, states1) && Unhindered(cfg, start, rs1, states1, now)
    requires History(env, cfg, Open(cfg, start), rs2, states2) && Unhindered(cfg, start, rs2, states2, now)
    requires Input(rs1) == Input(rs2)
    ensures SameSession(states1[|rs1|], states2[|rs2|])
  {
    hide OnData, Open, Explained, SameSession, Allowed, Input;
    assert rs1[..|rs1|] == rs1 && rs2[..|rs2|] == rs2;
    HistoryExplained(env, cfg, start, now, rs1, states1, |rs1|);
    HistoryExplained(env, cfg, start, now, rs2, states2, |rs2|);
    BytesDecide(env, cfg, start, now, states1[|rs1|], states2[|rs2|], Input(rs1));
  }
}
