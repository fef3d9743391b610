/** When the end of the client's input is passed on upstream: not always. */
module EndOfInput {
  import opened Bytes
  import opened Policy
  import opened Frames
  import opened Handshake
  import opened Engine
  import opened StreamInvariants
  import Segmentation

  lemma TakeFrameEof(env: Env, cfg: Cfg, st: St, now: int)
    requires NextOf(cfg, st).Take?
    ensures TakeFrame(env, cfg, st, now).eof == st.eof
  {
    hide Fragment, NextFrame, Payload, NoticeFrame, CloseFrame;
    var n := NextOf(cfg, st);
    Segmentation.FragmentNeed(env, cfg, Hold(st, n), now, n.fin, n.len, Payload(st.acc, n));
  }

  lemma {:induction false} PumpEof(env: Env, cfg: Cfg, st: St, now: int)
    ensures Pump(env, cfg, st, now).eof == st.eof
    decreases |st.acc|
  {
    hide TakeFrame, NextFrame, NoticeFrame, CloseFrame;
    if !st.killed && NextOf(cfg, st).Take? {
      TakeFrameEof(env, cfg, st, now);
      PumpEof(env, cfg, TakeFrame(env, cfg, st, now), now);
    }
  }

  lemma ClassifyEof(env: Env, cfg: Cfg, st: St, r: Read, end: nat)
    requires end <= |st.hs|
    ensures var st' := Classify(env, cfg, st, r, end);
            st'.eof == (st.eof || (r.last && !st'.killed))
  {
    hide Pump, BareLf, IsUpgrade, NoticeFrame, CloseFrame;
    PumpEof(env, cfg, st.(hs := [], sends := st.sends + [env.recode(st.hs[..end])],
                          mode := WebSocket, acc := st.hs[end..]), r.now);
  }

  /** The reads that get as far as the end-of-input step: every read in plain
      mode, every empty one, the one that completes the header block, and the
      ones that complete the bytes the pump is waiting for. */
  predicate Reached(st: St, r: Read) {
    || st.mode == Plain
    || r.data == []
    || (st.mode == Handshaking && BlockEnd(st.hs + r.data, st.hsScanned - 2) >= 0)
    || (st.mode == WebSocket && |st.acc| + st.pendingLen + |r.data| >= st.need)
  }

  lemma HandshakeEof(env: Env, cfg: Cfg, st: St, r: Read)
    requires st.mode == Handshaking && r.data != []
    ensures var st' := HandshakeRead(env, cfg, st, r);
            st'.eof == (st.eof || (r.last && !st'.killed && Reached(st, r)))
  {
    hide Classify, BlockEnd, NoticeFrame, CloseFrame;
    var st3 := st.(hsReads := st.hsReads + 1, hs := st.hs + r.data, hsScanned := |st.hs + r.data|);
    var end := BlockEnd(st3.hs, st.hsScanned - 2);
    if end >= 0 { ClassifyEof(env, cfg, st3, r, end); }
  }

  lemma WebSocketEof(env: Env, cfg: Cfg, st: St, r: Read)
    requires st.mode == WebSocket && r.data != []
    ensures var st' := WebSocketRead(env, cfg, st, r);
            st'.eof == (st.eof || (r.last && !st'.killed && Reached(st, r)))
  {
    hide Pump, Flatten, NoticeFrame, CloseFrame;
    var held := st.(msgReads := st.msgReads + 1, chunks := st.chunks + [r.data], pendingLen := st.pendingLen + |r.data|);
    PumpEof(env, cfg, held.(acc := Unparsed(held), chunks := [], pendingLen := 0), r.now);
  }

  /** In any state and on any read, a session that survives has passed on the end
      of input if and only if it had before, or this read carries it and gets as
      far as that step. A read that cuts the session never passes it on. */
  lemma EofPassedExactly(env: Env, cfg: Cfg, st: St, r: Read)
    ensures var st' := OnData(env, cfg, st, r);
            if st'.killed then st'.eof == st.eof else (st'.eof <==> st.eof || (r.last && Reached(st, r)))
  {
    hide HandshakeRead, WebSocketRead, BlockEnd, NoticeFrame, CloseFrame;
    if !st.killed && r.data != [] {
      var st' := Recheck(cfg, st, r);
      if st.mode == Handshaking { HandshakeEof(env, cfg, st', r); }
      if st.mode == WebSocket { WebSocketEof(env, cfg, st', r); }
    }
  }

  /** So over a whole session: it has been passed on if and only if some read
      both carried it and got that far. */
  lemma {:induction false} EofOverSession(env: Env, cfg: Cfg, start: int, rs: seq<Read>, states: seq<St>, k: nat)
    requires History(env, cfg, Open(cfg, start), rs, states) && k <= |rs| && !states[k].killed
    ensures states[k].eof <==> exists i :: 0 <= i < k && rs[i].last && Reached(states[i], rs[i])
  {
    hide Reached;
    if k > 0 {
      var st, r := states[k - 1], rs[k - 1];
      assert states[k - 1 + 1] == OnData(env, cfg, st, r);
      EofPassedExactly(env, cfg, st, r);
      hide OnData;
      EofOverSession(env, cfg, start, rs, states, k - 1);
    }
  }

  /** So wherever a read would survive without getting that far, the same bytes
      end the session upstream or not, depending on whether the end of input
      comes with the last of them or by itself. */
  lemma EofDependsOnCut(env: Env, cfg: Cfg, st: St, data: Bytes, now: int)
    requires !st.killed && !st.eof && !RecheckDue(cfg, st, now)
    requires !Reached(st, Read(data, true, now, false))
    requires !OnData(env, cfg, st, Read(data, false, now, false)).killed
    ensures !OnData(env, cfg, st, Read(data, true, now, false)).eof
    ensures OnData(env, cfg, OnData(env, cfg, st, Read(data, false, now, false)), Read([], true, now, false)).eof
  {
    hide Pump, Classify, BlockEnd, NoticeFrame, CloseFrame;
  }

  /** The policy lets a new session read at all. */
  predicate Usable(cfg: Cfg) {
    cfg.maxHsReads >= 1 && (cfg.banOn ==> cfg.banRecheck > 0)
  }

  /** The first byte of a request, with the end of input on it or after it: the
      first way drops the end of input, the second passes it on. */
  lemma EofLostInHandshake(env: Env, cfg: Cfg, now: int)
    requires Usable(cfg)
    ensures var st' := OnData(env, cfg, Open(cfg, now), Read([0x47], true, now, false));
            !st'.killed && !st'.eof
    ensures var st' := OnData(env, cfg, OnData(env, cfg, Open(cfg, now), Read([0x47], false, now, false)), Read([], true, now, false));
            !st'.killed && st'.eof
  {
    assert [] + [0x47] == [0x47];
    BlockEndUnique([0x47], -2, -1, BlockEnd([0x47], -2));
  }

  /** The shortest request this engine takes for an upgrade. */
  const HELLO: Bytes := [CR, LF] + UPGRADE + WEBSOCKET + [CR, LF, CR, LF]

  lemma HelloIsUpgrade()
    ensures |HELLO| == 23 && BlockEnd(HELLO, -2) == 23 && !BareLf(HELLO, 23) && IsUpgrade(HELLO)
  {
    assert forall i :: 0 <= i < 23 && HELLO[i] == LF ==> i in [1, 20, 22];
    assert TerminatorAt(HELLO, 20) == 3;
    assert forall i: nat :: i < 20 ==> TerminatorAt(HELLO, i) == 0;
    BlockEndUnique(HELLO, -2, 23, BlockEnd(HELLO, -2));
    assert HELLO[2..][8..] == WEBSOCKET + [CR, LF, CR, LF];
  }

  lemma HelloOpens(env: Env, cfg: Cfg, now: int)
    requires Usable(cfg)
    ensures var st := OnData(env, cfg, Open(cfg, now), Read(HELLO, false, now, false));
            && !st.killed && st.mode == WebSocket && !st.eof && st.msgReads == 0
            && st.acc == [] && st.pendingLen == 0 && st.need == 2 && (cfg.banOn ==> now < st.banCheckAt)
  {
    hide BlockEnd, BareLf, IsUpgrade, NoticeFrame, CloseFrame;
    HelloIsUpgrade();
    assert [] + HELLO == HELLO && HELLO[..23] == HELLO && HELLO[23..] == [];
  }

  /** The same after an upgrade, with the first byte of a frame. */
  lemma EofLostInFrame(env: Env, cfg: Cfg, now: int)
    requires Usable(cfg) && cfg.maxMsgReads >= 1
    ensures var st := OnData(env, cfg, Open(cfg, now), Read(HELLO, false, now, false));
            var st' := OnData(env, cfg, st, Read([0x81], true, now, false));
            !st'.killed && !st'.eof
    ensures var st := OnData(env, cfg, Open(cfg, now), Read(HELLO, false, now, false));
            var st' := OnData(env, cfg, OnData(env, cfg, st, Read([0x81], false, now, false)), Read([], true, now, false));
            !st'.killed && st'.eof
  {
    hide Pump, HandshakeRead, Open, NoticeFrame, CloseFrame;
    HelloOpens(env, cfg, now);
  }
}
